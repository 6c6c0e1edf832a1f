/**
  Target selection and the combat pass (kotf/js/combat.js).

  Both searches in combat.js walk a list of enemies keeping the closest one seen so far,
  replacing it only on a strictly smaller distance. `Scan` is that walk as a function over a
  prefix of the enemies' states; the search methods are the loops themselves, proved equal to
  it, and the lemmas say what the walk computes. Distances are compared squared: the
  engagement radius 3 becomes 9 and the in-combat discount 0.8 becomes 0.64, which orders
  non-negative distances exactly as combat.js does.
 */
module Combat {
  import opened Knights

  datatype Option<T> = None | Some(value: T)

  /** The two searches: a fresh enemy (`findNearestEnemy`), or any living enemy once an
      ally is fighting (`findNearbyBattle`). */
  datatype Search = FreshTarget | OngoingBattle

  /** The closest enemy seen so far by a walk, with its (squared, possibly discounted) distance. */
  datatype Candidate = NoCandidate | Candidate(index: nat, key: real)

  /** The engagement radius 3, squared. */
  const EngagementRadiusSq: real := 9.0
  /** The in-combat discount 0.8, squared. */
  const InCombatDiscountSq: real := 0.64
  /** 3 / 0.8 = 3.75, squared: how far away an enemy in combat can still be chosen. */
  const InCombatReachSq: real := 14.0625

  /** Squared Euclidean distance between two knights on the ground plane. */
  function DistSq(a: KnightState, b: KnightState): (d: real)
    ensures d >= 0.0
  {
    (a.x - b.x) * (a.x - b.x) + (a.z - b.z) * (a.z - b.z)
  }

  /** Which enemies a search considers: living ones, and for a fresh target only those not retreating. */
  predicate Admits(search: Search, e: KnightState)
  {
    e.health > 0.0 && (search == OngoingBattle || !e.isRetreating)
  }

  /** The distance a search ranks enemy `e` by: a fresh-target search discounts enemies in combat. */
  function Key(search: Search, k: KnightState, e: KnightState): real
  {
    if search == FreshTarget && e.inCombat then InCombatDiscountSq * DistSq(k, e) else DistSq(k, e)
  }

  /** One step of the walk: enemy `j` replaces the best so far only if admitted and strictly closer. */
  function Improve(search: Search, k: KnightState, es: seq<KnightState>, j: nat, c: Candidate): Candidate
    requires j < |es|
  {
    if !Admits(search, es[j]) then c
    else
      var d := Key(search, k, es[j]);
      if c.NoCandidate? || d < c.key then Candidate(j, d) else c
  }

  /** The walk over the first `n` enemies, starting from `c`. */
  function Scan(search: Search, k: KnightState, es: seq<KnightState>, n: nat, c: Candidate): Candidate
    requires n <= |es|
    decreases n
  {
    if n == 0 then c else Improve(search, k, es, n - 1, Scan(search, k, es, n - 1, c))
  }

  /** The final test of both searches: the best candidate, if it lies within the engagement radius. */
  function Within(c: Candidate): Option<nat>
  {
    if c.Candidate? && c.key < EngagementRadiusSq then Some(c.index) else None
  }

  /** `findNearestEnemy` for a knight in state `k`, as the index of the enemy it returns. */
  function NearestEnemy(k: KnightState, es: seq<KnightState>): Option<nat>
  {
    Within(Scan(FreshTarget, k, es, |es|, NoCandidate))
  }

  /** The nearest living enemy within the engagement radius, retreating or not. */
  function NearestLiving(k: KnightState, es: seq<KnightState>): Option<nat>
  {
    Within(Scan(OngoingBattle, k, es, |es|, NoCandidate))
  }

  /** Whether some knight of a roster is in combat. */
  predicate AnyInCombat(ks: seq<KnightState>)
  {
    exists i :: 0 <= i < |ks| && ks[i].inCombat
  }

  /** The double walk of `findNearbyBattle` over the first `a` allies: each ally in combat
      restarts the walk over all enemies from the best so far. */
  function ScanAllies(k: KnightState, allies: seq<KnightState>, es: seq<KnightState>, a: nat): Candidate
    requires a <= |allies|
    decreases a
  {
    if a == 0 then NoCandidate
    else
      var c := ScanAllies(k, allies, es, a - 1);
      if allies[a - 1].inCombat then Scan(OngoingBattle, k, es, |es|, c) else c
  }

  /** `findNearbyBattle`, as the index of the enemy it returns. */
  function NearbyBattle(k: KnightState, allies: seq<KnightState>, es: seq<KnightState>): Option<nat>
  {
    Within(ScanAllies(k, allies, es, |allies|))
  }

  /** The knight an index search result denotes, or null. */
  function Pick(es: seq<Knight>, r: Option<nat>): Knight?
  {
    if r.Some? && r.value < |es| then es[r.value] else null
  }

  /** The enemy the combat pass gives a knight in state `k`: none if it is at 0 health or
      already in combat; else the nearest fresh enemy; else, failing that, an enemy of a
      nearby battle. */
  function Target(k: KnightState, allies: seq<KnightState>, es: seq<KnightState>): Option<nat>
  {
    if k.health <= 0.0 || k.inCombat then None
    else if NearestEnemy(k, es).Some? then NearestEnemy(k, es)
    else NearbyBattle(k, allies, es)
  }

  // ----- what the walk computes -----

  /** From no candidate, the walk over `n` enemies ends with none exactly when none is admitted,
      and otherwise with an admitted enemy whose key is the least, and strictly less than the
      key of every admitted enemy before it (ties go to the earliest). */
  lemma {:induction false} ScanFindsFirstMinimum(search: Search, k: KnightState, es: seq<KnightState>, n: nat)
    requires n <= |es|
    ensures var c := Scan(search, k, es, n, NoCandidate);
      && (c.NoCandidate? <==> forall j :: 0 <= j < n ==> !Admits(search, es[j]))
      && (c.Candidate? ==>
            && c.index < n
            && Admits(search, es[c.index])
            && c.key == Key(search, k, es[c.index])
            && (forall j :: 0 <= j < n && Admits(search, es[j]) ==> c.key <= Key(search, k, es[j]))
            && (forall j :: 0 <= j < c.index && Admits(search, es[j]) ==> c.key < Key(search, k, es[j])))
  {
    if n > 0 {
      ScanFindsFirstMinimum(search, k, es, n - 1);
    }
  }

  /** Walking again from a candidate no admitted enemy beats leaves it in place. */
  lemma {:induction false} ScanKeepsMinimum(search: Search, k: KnightState, es: seq<KnightState>, n: nat, c: Candidate)
    requires n <= |es| && c.Candidate?
    requires forall j :: 0 <= j < n && Admits(search, es[j]) ==> c.key <= Key(search, k, es[j])
    ensures Scan(search, k, es, n, c) == c
  {
    if n > 0 {
      ScanKeepsMinimum(search, k, es, n - 1, c);
    }
  }

  /** The double walk equals one walk over the enemies as soon as one ally is in combat:
      repeating it for further allies changes nothing. */
  lemma {:induction false} ScanAlliesIsOneScan(k: KnightState, allies: seq<KnightState>, es: seq<KnightState>, a: nat)
    requires a <= |allies|
    ensures ScanAllies(k, allies, es, a) ==
      if exists i :: 0 <= i < a && allies[i].inCombat then Scan(OngoingBattle, k, es, |es|, NoCandidate)
      else NoCandidate
  {
    if a > 0 {
      ScanAlliesIsOneScan(k, allies, es, a - 1);
      var full := Scan(OngoingBattle, k, es, |es|, NoCandidate);
      if allies[a - 1].inCombat && exists i :: 0 <= i < a - 1 && allies[i].inCombat {
        ScanFindsFirstMinimum(OngoingBattle, k, es, |es|);
        if full.Candidate? {
          ScanKeepsMinimum(OngoingBattle, k, es, |es|, full);
        }
      }
    }
  }

  // ----- findNearestEnemy -----

  /** The enemy found is living, not retreating, within the radius after the discount, at a
      least discounted distance among eligible enemies, and the first such in list order. */
  lemma NearestEnemyIsFirstClosest(k: KnightState, es: seq<KnightState>)
    ensures var r := NearestEnemy(k, es);
      r.Some? ==>
        && r.value < |es|
        && es[r.value].health > 0.0 && !es[r.value].isRetreating
        && Key(FreshTarget, k, es[r.value]) < EngagementRadiusSq
        && (forall j :: 0 <= j < |es| && Admits(FreshTarget, es[j]) ==>
              Key(FreshTarget, k, es[r.value]) <= Key(FreshTarget, k, es[j]))
        && (forall j :: 0 <= j < r.value && Admits(FreshTarget, es[j]) ==>
              Key(FreshTarget, k, es[r.value]) < Key(FreshTarget, k, es[j]))
  {
    ScanFindsFirstMinimum(FreshTarget, k, es, |es|);
  }

  /** An enemy is found exactly when some eligible enemy is within the radius after the
      discount; in particular an empty or all-ineligible list gives none. */
  lemma NearestEnemyFoundIff(k: KnightState, es: seq<KnightState>)
    ensures NearestEnemy(k, es).Some? <==>
      exists j :: 0 <= j < |es| && Admits(FreshTarget, es[j]) && Key(FreshTarget, k, es[j]) < EngagementRadiusSq
  {
    ScanFindsFirstMinimum(FreshTarget, k, es, |es|);
  }

  /** The discount only widens the radius: an enemy in combat is chosen only within 3.75,
      any other only within 3. */
  lemma NearestEnemyReach(k: KnightState, es: seq<KnightState>)
    ensures var r := NearestEnemy(k, es);
      r.Some? ==>
        r.value < |es| &&
        DistSq(k, es[r.value]) < (if es[r.value].inCombat then InCombatReachSq else EngagementRadiusSq)
  {
    ScanFindsFirstMinimum(FreshTarget, k, es, |es|);
  }

  /** The discount never excludes an enemy: if an eligible enemy lies within 3 by raw distance,
      some enemy is found. */
  lemma DiscountNeverExcludes(k: KnightState, es: seq<KnightState>, j: nat)
    requires j < |es| && es[j].health > 0.0 && !es[j].isRetreating
    requires DistSq(k, es[j]) < EngagementRadiusSq
    ensures NearestEnemy(k, es).Some?
  {
    assert Admits(FreshTarget, es[j]);
    NearestEnemyFoundIff(k, es);
  }

  /** At equal or smaller raw distance (and not on top of the knight), an enemy already in
      combat beats an idle one: the search never picks the idle one over it. */
  lemma EngagedEnemyPreferred(k: KnightState, es: seq<KnightState>, j: nat)
    requires j < |es| && Admits(FreshTarget, es[j]) && es[j].inCombat && DistSq(k, es[j]) > 0.0
    requires NearestEnemy(k, es).Some?
    ensures var i := NearestEnemy(k, es).value;
      i < |es| && (DistSq(k, es[j]) <= DistSq(k, es[i]) ==> es[i].inCombat)
  {
    NearestEnemyIsFirstClosest(k, es);
  }

  // ----- findNearbyBattle -----

  /** The nearest living enemy: living, within 3, at a least raw distance among living enemies,
      the first such in list order; and found exactly when some living enemy is within 3. */
  lemma NearestLivingIsFirstClosest(k: KnightState, es: seq<KnightState>)
    ensures var r := NearestLiving(k, es);
      && (r.Some? <==> exists j :: 0 <= j < |es| && es[j].health > 0.0 && DistSq(k, es[j]) < EngagementRadiusSq)
      && (r.Some? ==>
            && r.value < |es|
            && es[r.value].health > 0.0
            && DistSq(k, es[r.value]) < EngagementRadiusSq
            && (forall j :: 0 <= j < |es| && es[j].health > 0.0 ==> DistSq(k, es[r.value]) <= DistSq(k, es[j]))
            && (forall j :: 0 <= j < r.value && es[j].health > 0.0 ==> DistSq(k, es[r.value]) < DistSq(k, es[j])))
  {
    ScanFindsFirstMinimum(OngoingBattle, k, es, |es|);
    if exists j :: 0 <= j < |es| && es[j].health > 0.0 && DistSq(k, es[j]) < EngagementRadiusSq {
      var j :| 0 <= j < |es| && es[j].health > 0.0 && DistSq(k, es[j]) < EngagementRadiusSq;
      assert Admits(OngoingBattle, es[j]);
    }
  }

  /** `findNearbyBattle` finds nothing unless an ally is in combat; otherwise its result does
      not depend on which or how many allies are: it is the nearest living enemy of the
      querying knight itself. */
  lemma NearbyBattleIgnoresWhichAllies(k: KnightState, allies: seq<KnightState>, es: seq<KnightState>)
    ensures NearbyBattle(k, allies, es) == if AnyInCombat(allies) then NearestLiving(k, es) else None
  {
    ScanAlliesIsOneScan(k, allies, es, |allies|);
  }

  /** The fallback search does not skip retreating enemies, so when the first search found
      nothing, whatever the fallback finds is retreating. */
  lemma FallbackTargetIsRetreating(k: KnightState, allies: seq<KnightState>, es: seq<KnightState>)
    requires NearestEnemy(k, es).None?
    requires NearbyBattle(k, allies, es).Some?
    ensures var i := NearbyBattle(k, allies, es).value;
      i < |es| && es[i].health > 0.0 && es[i].isRetreating
  {
    NearbyBattleIgnoresWhichAllies(k, allies, es);
    NearestLivingIsFirstClosest(k, es);
    var i := NearbyBattle(k, allies, es).value;
    if !es[i].isRetreating {
      DiscountNeverExcludes(k, es, i);
    }
  }

  /** The pass gives a target only to a knight with health above 0 that is not in combat; the
      target is a living enemy of the list, the nearest fresh one when there is one, and
      otherwise the nearest living one, provided an ally is in combat. */
  lemma TargetIsLivingEnemy(k: KnightState, allies: seq<KnightState>, es: seq<KnightState>)
    ensures var t := Target(k, allies, es);
      && (t.Some? ==> k.health > 0.0 && !k.inCombat && t.value < |es| && es[t.value].health > 0.0)
      && (k.health > 0.0 && !k.inCombat ==>
            t == if NearestEnemy(k, es).Some? then NearestEnemy(k, es)
                 else if AnyInCombat(allies) then NearestLiving(k, es) else None)
  {
    NearestEnemyIsFirstClosest(k, es);
    NearbyBattleIgnoresWhichAllies(k, allies, es);
    NearestLivingIsFirstClosest(k, es);
  }

  // ----- the searches as the loops of combat.js -----

  /** `findNearestEnemy`: one walk over the enemies keeping the closest eligible one. */
  method FindNearestEnemy(knight: Knight, enemyList: seq<Knight>) returns (closestEnemy: Knight?)
    ensures closestEnemy == Pick(enemyList, NearestEnemy(knight.State(), States(enemyList)))
  {
    closestEnemy := null;
    var closestDistance: real := 0.0;  // stands for +infinity while closestEnemy is null
    ghost var c := NoCandidate;
    for i := 0 to |enemyList|
      invariant c == Scan(FreshTarget, knight.State(), States(enemyList), i, NoCandidate)
      invariant c.NoCandidate? ==> closestEnemy == null
      invariant c.Candidate? ==>
        c.index < i && closestEnemy == enemyList[c.index] && closestDistance == c.key
    {
      var enemy := enemyList[i];
      if enemy.health <= 0.0 || enemy.isRetreating {
        continue;
      }
      var distance := DistSq(knight.State(), enemy.State());
      if enemy.inCombat {
        distance := distance * InCombatDiscountSq;
      }
      if closestEnemy == null || distance < closestDistance {
        closestDistance := distance;
        closestEnemy := enemy;
        c := Candidate(i, distance);
      }
    }
    if !(closestEnemy != null && closestDistance < EngagementRadiusSq) {
      closestEnemy := null;
    }
  }

  /** `findNearbyBattle`: for every ally in combat, one walk over the living enemies, all
      walks sharing one closest-so-far. */
  method FindNearbyBattle(knight: Knight, teamList: seq<Knight>, enemyList: seq<Knight>)
    returns (closestBattle: Knight?)
    ensures closestBattle == Pick(enemyList, NearbyBattle(knight.State(), States(teamList), States(enemyList)))
  {
    closestBattle := null;
    var closestDistance: real := 0.0;  // stands for +infinity while closestBattle is null
    ghost var c := NoCandidate;
    for a := 0 to |teamList|
      invariant c == ScanAllies(knight.State(), States(teamList), States(enemyList), a)
      invariant c.NoCandidate? ==> closestBattle == null
      invariant c.Candidate? ==>
        c.index < |enemyList| && closestBattle == enemyList[c.index] && closestDistance == c.key
    {
      if !teamList[a].inCombat {
        continue;
      }
      ghost var start := c;
      for i := 0 to |enemyList|
        invariant c == Scan(OngoingBattle, knight.State(), States(enemyList), i, start)
        invariant c.NoCandidate? ==> closestBattle == null
        invariant c.Candidate? ==>
          c.index < |enemyList| && closestBattle == enemyList[c.index] && closestDistance == c.key
      {
        var enemy := enemyList[i];
        if enemy.health <= 0.0 {
          continue;
        }
        var distance := DistSq(knight.State(), enemy.State());
        if closestBattle == null || distance < closestDistance {
          closestDistance := distance;
          closestBattle := enemy;
          c := Candidate(i, distance);
        }
      }
    }
    if !(closestBattle != null && closestDistance < EngagementRadiusSq) {
      closestBattle := null;
    }
  }

  // ----- the combat pass -----

  /** What one pass may do to a knight: nothing, or, if it had health above 0 and was not in
      combat, one `attack` on an enemy from `enemies`. */
  ghost predicate SameOrAttacked(before: KnightState, after: KnightState, enemies: seq<Knight>)
  {
    || after == before
    || (&& before.health > 0.0 && !before.inCombat
        && after.strikeTarget != null && after.strikeTarget in enemies
        && after == AfterAttack(before, after.strikeTarget))
  }

  /** What one army's half of the pass does to a knight in state `s` (state `t` after it):
      `nearest` is the enemy `findNearestEnemy` picks for it, `living` its nearest living enemy
      within reach, and `allyFighting` whether some knight of its army is in combat when its
      turn comes. A knight at 0 health or in combat is skipped; otherwise it attacks `nearest`;
      failing that it attacks `living` if an ally is fighting; otherwise it stays as it is. */
  ghost predicate PassOutcome(s: KnightState, t: KnightState, nearest: Knight?, living: Knight?,
                              allyFighting: bool)
  {
    if s.health <= 0.0 || s.inCombat then t == s
    else if nearest != null then t == AfterAttack(s, nearest)
    else if living != null && allyFighting then t == AfterAttack(s, living)
    else t == s
  }

  /** The first `n` turns of one army's half of the pass have been taken: roster states
      `before` have become `after` there, against the enemies `enemyList` whose states `es`
      stay as they are. At turn `j` the army stands as `after[..j] + before[j..]`: the knights
      before `j` have had their turn and the others have not. */
  ghost predicate OutcomeUpTo(before: seq<KnightState>, after: seq<KnightState>, enemyList: seq<Knight>,
                              es: seq<KnightState>, n: nat)
  {
    && n <= |before| && |after| == |before|
    && forall j :: 0 <= j < n ==>
         PassOutcome(before[j], after[j], Pick(enemyList, NearestEnemy(before[j], es)),
                     Pick(enemyList, NearestLiving(before[j], es)), AnyInCombat(after[..j] + before[j..]))
  }

  /** What one army's half of the pass does to the whole army: every knight has had its turn. */
  ghost predicate HalfOutcome(before: seq<KnightState>, after: seq<KnightState>, enemyList: seq<Knight>,
                              es: seq<KnightState>)
  {
    OutcomeUpTo(before, after, enemyList, es, |before|)
  }

  /** Taking turn `i` changes only knight `i`, so the turns already taken stay as they were. */
  lemma OutcomeUpToStep(before: seq<KnightState>, now: seq<KnightState>, enemyList: seq<Knight>,
                        es: seq<KnightState>, i: nat, t: KnightState)
    requires OutcomeUpTo(before, now, enemyList, es, i) && i < |before|
    requires PassOutcome(before[i], t, Pick(enemyList, NearestEnemy(before[i], es)),
                         Pick(enemyList, NearestLiving(before[i], es)), AnyInCombat(now[..i] + before[i..]))
    ensures OutcomeUpTo(before, now[i := t], enemyList, es, i + 1)
  {
    forall j | 0 <= j <= i ensures now[i := t][..j] == now[..j] {
    }
  }

  /** The body of the per-knight loop of `checkForCombat`: skip a knight at 0 health or in
      combat, otherwise attack the nearest fresh enemy or, failing that, an enemy of a nearby
      battle. */
  method Engage(knight: Knight, teamList: seq<Knight>, enemyList: seq<Knight>)
    requires knight.Valid()
    modifies knight
    ensures knight.Valid()
    ensures var t := old(Pick(enemyList, Target(knight.State(), States(teamList), States(enemyList))));
      knight.State() == if t == null then old(knight.State()) else AfterAttack(old(knight.State()), t)
  {
    if knight.health <= 0.0 || knight.inCombat {
      return;
    }
    NearestEnemyIsFirstClosest(knight.State(), States(enemyList));
    var closestEnemy := FindNearestEnemy(knight, enemyList);
    if closestEnemy != null {
      knight.Attack(closestEnemy);
    } else {
      var nearbyBattle := FindNearbyBattle(knight, teamList, enemyList);
      if nearbyBattle != null {
        knight.Attack(nearbyBattle);
      }
    }
  }

  /** What `Engage` does, read as a pass outcome: with the enemies unchanged and the army
      standing as `allies`, the attack `Engage` makes is the one `PassOutcome` names. */
  lemma EngagedAsPassOutcome(s: KnightState, t: KnightState, enemyList: seq<Knight>,
                             es: seq<KnightState>, allies: seq<KnightState>)
    requires |es| == |enemyList|
    requires var x := Pick(enemyList, Target(s, allies, es));
      t == if x == null then s else AfterAttack(s, x)
    ensures PassOutcome(s, t, Pick(enemyList, NearestEnemy(s, es)), Pick(enemyList, NearestLiving(s, es)),
                        AnyInCombat(allies))
  {
    TargetIsLivingEnemy(s, allies, es);
    NearestEnemyIsFirstClosest(s, es);
    NearestLivingIsFirstClosest(s, es);
  }

  /** Every outcome the pass allows is no change or one attack on an enemy from the list. */
  lemma PassOutcomeIsSameOrAttacked(s: KnightState, t: KnightState, enemyList: seq<Knight>,
                                    nearest: Option<nat>, living: Option<nat>, allyFighting: bool)
    requires PassOutcome(s, t, Pick(enemyList, nearest), Pick(enemyList, living), allyFighting)
    ensures SameOrAttacked(s, t, enemyList)
  {
  }

  /** Every outcome of a half leaves each knight unchanged or attacking one enemy of the list. */
  lemma HalfOutcomeIsSameOrAttacked(before: seq<KnightState>, after: seq<KnightState>,
                                    enemyList: seq<Knight>, es: seq<KnightState>)
    requires HalfOutcome(before, after, enemyList, es)
    ensures forall j :: 0 <= j < |before| ==> SameOrAttacked(before[j], after[j], enemyList)
  {
    forall j | 0 <= j < |before| ensures SameOrAttacked(before[j], after[j], enemyList) {
      PassOutcomeIsSameOrAttacked(before[j], after[j], enemyList, NearestEnemy(before[j], es),
                                  NearestLiving(before[j], es), AnyInCombat(after[..j] + before[j..]));
    }
  }

  /** One army's half of the pass, in roster order, against enemies outside the roster. Every
      knight ends as `PassOutcome` describes, with the army as it stands at its turn; in
      particular each attacks at most once, because an attack puts it in combat and the pass
      skips knights in combat. */
  method TeamPass(roster: seq<Knight>, enemyList: seq<Knight>)
    requires Distinct(roster)
    requires forall o :: o in roster ==> o !in enemyList
    requires forall o :: o in roster ==> o.Valid()
    modifies roster
    ensures forall o :: o in roster ==> o.Valid()
    ensures forall o :: o in roster ==> SameOrAttacked(old(o.State()), o.State(), enemyList)
    ensures States(enemyList) == old(States(enemyList))
    ensures HalfOutcome(old(States(roster)), States(roster), enemyList, States(enemyList))
  {
    ghost var before := States(roster);
    ghost var es := States(enemyList);
    for i := 0 to |roster|
      invariant forall j :: 0 <= j < |roster| ==> roster[j].Valid()
      invariant States(enemyList) == es
      invariant forall j :: i <= j < |roster| ==> roster[j].State() == before[j]
      invariant OutcomeUpTo(before, States(roster), enemyList, es, i)
    {
      assert roster[i] in roster;
      TakeTurn(roster, enemyList, i, before, es);
    }
    ghost var after := States(roster);
    HalfOutcomeIsSameOrAttacked(before, after, enemyList, es);
    forall o | o in roster ensures o.Valid() && SameOrAttacked(old(o.State()), o.State(), enemyList) {
      var j :| 0 <= j < |roster| && roster[j] == o;
      assert after[j] == o.State();
    }
  }

  /** Turn `i` of a half of the pass: knight `i` of the roster, still as it was when the half
      began (`before[i]`), engages against the enemy states `es`, with the army as it stands
      now deciding whether an ally is fighting. The turns already taken stay as they were. */
  method TakeTurn(roster: seq<Knight>, enemyList: seq<Knight>, i: nat,
                  ghost before: seq<KnightState>, ghost es: seq<KnightState>)
    requires Distinct(roster)
    requires i < |roster| == |before|
    requires roster[i] !in enemyList
    requires forall j :: 0 <= j < |roster| ==> roster[j].Valid()
    requires States(enemyList) == es
    requires forall j :: i <= j < |roster| ==> roster[j].State() == before[j]
    requires OutcomeUpTo(before, States(roster), enemyList, es, i)
    modifies roster[i]
    ensures forall j :: 0 <= j < |roster| ==> roster[j].Valid()
    ensures States(enemyList) == es
    ensures forall j :: i < j < |roster| ==> roster[j].State() == before[j]
    ensures OutcomeUpTo(before, States(roster), enemyList, es, i + 1)
  {
    ghost var now := States(roster);
    assert now[..i] + before[i..] == now;
    Engage(roster[i], roster, enemyList);
    EngagedAsPassOutcome(before[i], roster[i].State(), enemyList, es, now);
    OutcomeUpToStep(before, now, enemyList, es, i, roster[i].State());
    assert States(roster) == now[i := roster[i].State()];
  }

  /** `checkForCombat`: all red knights pick and attack first, then all blue knights. Blue
      knights search the red knights as the red half left them, so red knights that attacked
      are already in combat, and discounted, when blue knights choose. */
  method CheckForCombat(redKnights: seq<Knight>, blueKnights: seq<Knight>)
    requires Distinct(redKnights + blueKnights)
    requires forall o :: o in redKnights || o in blueKnights ==> o.Valid()
    modifies redKnights, blueKnights
    ensures forall o :: o in redKnights || o in blueKnights ==> o.Valid()
    ensures forall o :: o in redKnights ==> SameOrAttacked(old(o.State()), o.State(), blueKnights)
    ensures forall o :: o in blueKnights ==> SameOrAttacked(old(o.State()), o.State(), redKnights)
    ensures HalfOutcome(old(States(redKnights)), States(redKnights), blueKnights, old(States(blueKnights)))
    ensures HalfOutcome(old(States(blueKnights)), States(blueKnights), redKnights, States(redKnights))
  {
    DistinctParts(redKnights, blueKnights);
    TeamPass(redKnights, blueKnights);
    TeamPass(blueKnights, redKnights);
  }
}
