/**
  Battle setup and the per-frame tick (kotf/js/main.js): the 8 x 8 formations, the frontline
  charge trigger and the fixed order of one tick. The module-level rosters of main.js are
  the two fields of a `Battlefield`; its constructor spawns both armies as main.js:35-36 does.
 */
module Battle {
  import opened Knights
  import Combat

  const NumKnights: nat := 64
  /** The side of the square formation, the square root of `NumKnights`. */
  const RowSize: nat := 8
  const FormationSpacing: real := 2.0
  const FlankingPercentage: real := 0.3
  const ChargeDistance: real := 20.0
  const RedStartX: real := -30.0
  const BlueStartX: real := 30.0

  // ----- formation layout -----

  /** x of the i-th knight of an army centred near `startX`: its column is i mod 8. */
  function FormationX(startX: real, i: nat): real
  {
    startX + ((i % RowSize) as real * FormationSpacing - RowSize as real)
  }

  /** z of the i-th knight: its row is i div 8. */
  function FormationZ(i: nat): real
  {
    (i / RowSize) as real * FormationSpacing - RowSize as real / 2.0
  }

  /** The states of a freshly spawned army: knight i is a recruit at its formation spot. */
  function Formation(startX: real): (f: seq<KnightState>)
    ensures |f| == NumKnights
    ensures forall i :: 0 <= i < NumKnights ==> f[i].x == FormationX(startX, i) && f[i].health == MaxHealth
  {
    seq(NumKnights, i requires 0 <= i < NumKnights => Recruit(FormationX(startX, i), FormationZ(i)))
  }

  /** No two knights of an army start on the same spot. */
  lemma FormationIsInjective(startX: real, i: nat, j: nat)
    requires i != j
    ensures FormationX(startX, i) != FormationX(startX, j) || FormationZ(i) != FormationZ(j)
  {
  }

  /** An army occupies x in [startX - 8, startX + 6] and z in [-4, 10]. */
  lemma FormationBounds(startX: real, i: nat)
    requires i < NumKnights
    ensures startX - 8.0 <= FormationX(startX, i) <= startX + 6.0
    ensures -4.0 <= FormationZ(i) <= 10.0
  {
  }

  /** The two random draws that decide a knight's flank. */
  datatype FlankDraws = FlankDraws(flanker: real, side: real)

  /** A flanker (first draw below 0.3) drifts +1 (second draw above 0.5) or -1; others go straight. */
  function FlankDirection(draws: FlankDraws): (d: int)
    ensures -1 <= d <= 1
    ensures d != 0 <==> draws.flanker < FlankingPercentage
  {
    if draws.flanker < FlankingPercentage then (if draws.side > 0.5 then 1 else -1) else 0
  }

  /** `spawnKnights`: 64 new knights of one team in formation, knight i at row i div 8 and
      column i mod 8, with the flank direction its draws give. */
  method SpawnKnights(team: Team, startX: real, draws: seq<FlankDraws>) returns (knights: seq<Knight>)
    requires |draws| == NumKnights
    ensures |knights| == NumKnights && Distinct(knights)
    ensures forall i :: 0 <= i < NumKnights ==>
      && fresh(knights[i]) && knights[i].Valid()
      && knights[i].team == team
      && knights[i].flankDirection == FlankDirection(draws[i])
      && knights[i].State() == Recruit(FormationX(startX, i), FormationZ(i))
    ensures States(knights) == Formation(startX)
  {
    knights := [];
    for i := 0 to NumKnights
      invariant |knights| == i && Distinct(knights)
      invariant forall j :: 0 <= j < i ==>
        && fresh(knights[j]) && knights[j].Valid()
        && knights[j].team == team
        && knights[j].flankDirection == FlankDirection(draws[j])
        && knights[j].State() == Recruit(FormationX(startX, j), FormationZ(j))
    {
      var flankDirection := FlankDirection(draws[i]);
      var knight := new Knight(team, FormationX(startX, i), FormationZ(i), flankDirection);
      knights := knights + [knight];
    }
  }

  // ----- the charge trigger -----

  function Max(xs: seq<real>): real
    requires |xs| > 0
  {
    if |xs| == 1 then xs[0]
    else
      var m := Max(xs[1..]);
      if xs[0] > m then xs[0] else m
  }

  function Min(xs: seq<real>): real
    requires |xs| > 0
  {
    if |xs| == 1 then xs[0]
    else
      var m := Min(xs[1..]);
      if xs[0] < m then xs[0] else m
  }

  function Abs(r: real): real
  {
    if r < 0.0 then -r else r
  }

  lemma {:induction false} MaxIsLargest(xs: seq<real>)
    requires |xs| > 0
    ensures forall i :: 0 <= i < |xs| ==> xs[i] <= Max(xs)
    ensures exists i :: 0 <= i < |xs| && xs[i] == Max(xs)
  {
    if |xs| > 1 {
      MaxIsLargest(xs[1..]);
      var i :| 0 <= i < |xs[1..]| && xs[1..][i] == Max(xs[1..]);
      assert xs[i + 1] == Max(xs[1..]);
      if xs[0] > Max(xs[1..]) {
        assert xs[0] == Max(xs);
      } else {
        assert xs[i + 1] == Max(xs);
      }
      forall j | 0 <= j < |xs| ensures xs[j] <= Max(xs) {
        if j > 0 {
          assert xs[j] == xs[1..][j - 1];
        }
      }
    } else {
      assert xs[0] == Max(xs);
    }
  }

  lemma {:induction false} MinIsSmallest(xs: seq<real>)
    requires |xs| > 0
    ensures forall i :: 0 <= i < |xs| ==> Min(xs) <= xs[i]
    ensures exists i :: 0 <= i < |xs| && xs[i] == Min(xs)
  {
    if |xs| > 1 {
      MinIsSmallest(xs[1..]);
      var i :| 0 <= i < |xs[1..]| && xs[1..][i] == Min(xs[1..]);
      assert xs[i + 1] == Min(xs[1..]);
      if xs[0] < Min(xs[1..]) {
        assert xs[0] == Min(xs);
      } else {
        assert xs[i + 1] == Min(xs);
      }
      forall j | 0 <= j < |xs| ensures Min(xs) <= xs[j] {
        if j > 0 {
          assert xs[j] == xs[1..][j - 1];
        }
      }
    } else {
      assert xs[0] == Min(xs);
    }
  }

  /** The x coordinates of an army, dead knights included. */
  function Positions(ks: seq<Knight>): seq<real>
    reads ks
  {
    seq(|ks|, i requires 0 <= i < |ks| reads ks => ks[i].x)
  }

  /** `checkChargeCondition`'s test: the red frontline (largest red x) and the blue frontline
      (smallest blue x) are less than 20 apart. An empty army has frontline -infinity or
      +infinity, and then the distance is infinite. */
  function ShouldCharge(redXs: seq<real>, blueXs: seq<real>): bool
  {
    |redXs| > 0 && |blueXs| > 0 && Abs(Max(redXs) - Min(blueXs)) < ChargeDistance
  }

  /** Armies whose every red x lies at least 20 behind every blue x do not charge. */
  lemma ApartArmiesDoNotCharge(redXs: seq<real>, blueXs: seq<real>, redFront: real, blueFront: real)
    requires forall i :: 0 <= i < |redXs| ==> redXs[i] <= redFront
    requires forall i :: 0 <= i < |blueXs| ==> blueXs[i] >= blueFront
    requires blueFront - redFront >= ChargeDistance
    ensures !ShouldCharge(redXs, blueXs)
  {
    if |redXs| > 0 && |blueXs| > 0 {
      MaxIsLargest(redXs);
      MinIsSmallest(blueXs);
    }
  }

  /** What the charge check does to one knight, given whether the trigger fired (`go`): when
      it fired, main.js's `charge(knights)` asks only a living knight that is not attacking to
      charge; when it did not, nothing changes. */
  function Rallied(s: KnightState, go: bool): KnightState
  {
    if go && !s.isDead && !s.isAttacking then Charged(s) else s
  }

  /** `charge(knights)`: every living knight that is not attacking is charging afterwards;
      nothing else changes. */
  method ChargeArmy(knights: seq<Knight>)
    requires forall k :: k in knights ==> k.Valid()
    modifies knights
    ensures forall k :: k in knights ==> k.Valid()
    ensures forall k :: k in knights ==> k.State() == Rallied(old(k.State()), true)
    ensures forall k :: k in knights ==>
      (k.isCharging <==> old(k.isCharging) || (!old(k.isDead) && !old(k.isAttacking)))
  {
    for i := 0 to |knights|
      invariant forall k :: k in knights ==> k.Valid()
      invariant forall k :: k in knights ==> k.State() == old(k.State()) || k.State() == Rallied(old(k.State()), true)
      invariant forall j :: 0 <= j < i ==> knights[j].State() == Rallied(old(knights[j].State()), true)
    {
      var knight := knights[i];
      if !knight.isDead && !knight.isAttacking {
        knight.Charge();
      }
    }
  }

  /** `forEach(knight => knight.move(direction))` over a roster of distinct knights. */
  method MarchArmy(knights: seq<Knight>, direction: int)
    requires Distinct(knights)
    requires forall k :: k in knights ==> k.Valid()
    modifies knights
    ensures forall k :: k in knights ==> k.Valid()
    ensures forall k :: k in knights ==> k.State() == Moved(old(k.State()), k.flankDirection, direction)
  {
    for i := 0 to |knights|
      invariant forall k :: k in knights ==> k.Valid()
      invariant forall j :: 0 <= j < i ==>
        knights[j].State() == Moved(old(knights[j].State()), knights[j].flankDirection, direction)
      invariant forall j :: i <= j < |knights| ==> knights[j].State() == old(knights[j].State())
    {
      knights[i].Move(direction);
    }
    forall k | k in knights ensures k.State() == Moved(old(k.State()), k.flankDirection, direction) {
      var i :| 0 <= i < |knights| && knights[i] == k;
    }
  }

  /** The x coordinates an army would have after every knight moves once in `direction`. */
  function MarchedPositions(ks: seq<Knight>, direction: int): seq<real>
    reads ks
  {
    seq(|ks|, i requires 0 <= i < |ks| reads ks => Moved(ks[i].State(), ks[i].flankDirection, direction).x)
  }

  /** The states an army would have after every knight moves once in `direction` and the
      charge check, with outcome `go`, has run. */
  function MarchedStates(ks: seq<Knight>, direction: int, go: bool): seq<KnightState>
    reads ks
  {
    seq(|ks|, i requires 0 <= i < |ks| reads ks => Rallied(Moved(ks[i].State(), ks[i].flankDirection, direction), go))
  }

  /** The battle's invariant over its two rosters: 64 knights each, no knight twice, every
      knight consistent and on its side, and every scheduled strike aimed at the other army. */
  ghost predicate Muster(red: seq<Knight>, blue: seq<Knight>)
    reads red, blue
  {
    && |red| == NumKnights && |blue| == NumKnights
    && Distinct(red + blue)
    && (forall k :: k in red ==> k.team == Red && k.Valid() && (k.strikeTarget != null ==> k.strikeTarget in blue))
    && (forall k :: k in blue ==> k.team == Blue && k.Valid() && (k.strikeTarget != null ==> k.strikeTarget in red))
  }

  /** main.js:35-36: both armies spawn, red around x = -30 and blue around x = +30. */
  method SpawnArmies(redDraws: seq<FlankDraws>, blueDraws: seq<FlankDraws>) returns (red: seq<Knight>, blue: seq<Knight>)
    requires |redDraws| == NumKnights && |blueDraws| == NumKnights
    ensures Muster(red, blue)
    ensures forall i :: 0 <= i < NumKnights ==>
      red[i].flankDirection == FlankDirection(redDraws[i]) && blue[i].flankDirection == FlankDirection(blueDraws[i])
    ensures States(red) == Formation(RedStartX) && States(blue) == Formation(BlueStartX)
    ensures !ShouldCharge(Positions(red), Positions(blue))
  {
    red := SpawnKnights(Red, RedStartX, redDraws);
    blue := SpawnKnights(Blue, BlueStartX, blueDraws);
    assert forall k :: k in red ==> k !in blue;
    SpawnedRostersMuster(red, blue);
    SpawnedArmiesDoNotCharge(red, blue);
  }

  /** The battle: the two rosters of main.js. */
  class Battlefield {
    const red: seq<Knight>
    const blue: seq<Knight>

    ghost predicate Valid()
      reads red, blue
    {
      Muster(red, blue)
    }

    /** Spawning both armies: red around x = -30, blue around x = +30. They start 46 apart at
        the frontlines, so the charge trigger does not fire before they have marched. */
    constructor (redDraws: seq<FlankDraws>, blueDraws: seq<FlankDraws>)
      requires |redDraws| == NumKnights && |blueDraws| == NumKnights
      ensures Valid()
      ensures forall i :: 0 <= i < NumKnights ==>
        red[i].flankDirection == FlankDirection(redDraws[i]) && blue[i].flankDirection == FlankDirection(blueDraws[i])
      ensures States(red) == Formation(RedStartX) && States(blue) == Formation(BlueStartX)
      ensures !ShouldCharge(Positions(red), Positions(blue))
    {
      var r, b := SpawnArmies(redDraws, blueDraws);
      red, blue := r, b;
    }

    /** `checkChargeCondition`: when the frontlines are less than 20 apart, both armies charge. */
    method CheckChargeCondition()
      requires Valid()
      modifies red, blue
      ensures Valid()
      ensures var go := old(ShouldCharge(Positions(red), Positions(blue)));
        forall k :: k in red || k in blue ==>
          k.State() == Rallied(old(k.State()), go)
    {
      var redFrontline := Positions(red);
      var blueFrontline := Positions(blue);
      if ShouldCharge(redFrontline, blueFrontline) {
        ChargeArmy(red);
        ChargeArmy(blue);
      }
    }

    /** The marching part of a frame: every red knight moves towards +x, then every blue
        knight towards -x. */
    method March()
      requires Valid()
      modifies red, blue
      ensures Valid()
      ensures forall k :: k in red ==> k.State() == Moved(old(k.State()), k.flankDirection, 1)
      ensures forall k :: k in blue ==> k.State() == Moved(old(k.State()), k.flankDirection, -1)
      ensures Positions(red) == old(MarchedPositions(red, 1))
      ensures Positions(blue) == old(MarchedPositions(blue, -1))
    {
      DistinctParts(red, blue);
      MarchArmy(red, 1);
      MarchArmy(blue, -1);
    }

    /** The movement part of a frame: the armies march, then the charge trigger is evaluated
        on the new positions. */
    method Advance()
      requires Valid()
      modifies red, blue
      ensures Valid()
      ensures var go := old(ShouldCharge(MarchedPositions(red, 1), MarchedPositions(blue, -1)));
        && (forall k :: k in red ==> k.State() == Rallied(Moved(old(k.State()), k.flankDirection, 1), go))
        && (forall k :: k in blue ==> k.State() == Rallied(Moved(old(k.State()), k.flankDirection, -1), go))
        && States(red) == old(MarchedStates(red, 1, go))
        && States(blue) == old(MarchedStates(blue, -1, go))
    {
      ghost var go := ShouldCharge(MarchedPositions(red, 1), MarchedPositions(blue, -1));
      ghost var redMid, blueMid := MarchedStates(red, 1, go), MarchedStates(blue, -1, go);
      March();
      CheckChargeCondition();
      forall i | 0 <= i < |red| ensures States(red)[i] == redMid[i] {
        assert red[i] in red;
      }
      forall i | 0 <= i < |blue| ensures States(blue)[i] == blueMid[i] {
        assert blue[i] in blue;
      }
    }

    /** One frame: the armies march, the charge trigger is evaluated on the new positions,
        then the combat pass runs on the states the first two steps left. A frame never deals
        damage; that happens only when a strike lands. */
    method Animate()
      requires Valid()
      modifies red, blue
      ensures Valid()
      ensures var go := old(ShouldCharge(MarchedPositions(red, 1), MarchedPositions(blue, -1)));
        forall k :: k in red ==>
          Combat.SameOrAttacked(Rallied(Moved(old(k.State()), k.flankDirection, 1), go), k.State(), blue)
      ensures var go := old(ShouldCharge(MarchedPositions(red, 1), MarchedPositions(blue, -1)));
        forall k :: k in blue ==>
          Combat.SameOrAttacked(Rallied(Moved(old(k.State()), k.flankDirection, -1), go), k.State(), red)
      ensures var go := old(ShouldCharge(MarchedPositions(red, 1), MarchedPositions(blue, -1)));
        Combat.HalfOutcome(old(MarchedStates(red, 1, go)), States(red), blue, old(MarchedStates(blue, -1, go)))
      ensures var go := old(ShouldCharge(MarchedPositions(red, 1), MarchedPositions(blue, -1)));
        Combat.HalfOutcome(old(MarchedStates(blue, -1, go)), States(blue), red, States(red))
    {
      Advance();
      Combat.CheckForCombat(red, blue);
    }
  }

  /** Two freshly spawned, disjoint rosters of distinct recruits make a valid battle. */
  lemma SpawnedRostersMuster(red: seq<Knight>, blue: seq<Knight>)
    requires |red| == NumKnights && |blue| == NumKnights
    requires Distinct(red) && Distinct(blue) && forall k :: k in red ==> k !in blue
    requires forall i :: 0 <= i < |red| ==>
      red[i].Valid() && red[i].team == Red && red[i].State() == Recruit(red[i].x, red[i].z)
    requires forall i :: 0 <= i < |blue| ==>
      blue[i].Valid() && blue[i].team == Blue && blue[i].State() == Recruit(blue[i].x, blue[i].z)
    ensures Muster(red, blue)
  {
    forall k | k in red ensures k.team == Red && k.Valid() && k.strikeTarget == null {
      var i :| 0 <= i < |red| && red[i] == k;
    }
    forall k | k in blue ensures k.team == Blue && k.Valid() && k.strikeTarget == null {
      var i :| 0 <= i < |blue| && blue[i] == k;
    }
    DistinctJoin(red, blue);
  }

  /** Freshly spawned armies have their frontlines at x = -24 and x = 22, 46 apart: no charge yet. */
  lemma SpawnedArmiesDoNotCharge(red: seq<Knight>, blue: seq<Knight>)
    requires |red| == NumKnights && |blue| == NumKnights
    requires forall i :: 0 <= i < NumKnights ==>
      red[i].x == FormationX(RedStartX, i) && blue[i].x == FormationX(BlueStartX, i)
    ensures Max(Positions(red)) == -24.0 && Min(Positions(blue)) == 22.0
    ensures !ShouldCharge(Positions(red), Positions(blue))
  {
    forall i | 0 <= i < NumKnights
      ensures Positions(red)[i] <= RedStartX + 6.0 && Positions(blue)[i] >= BlueStartX - 8.0
    {
      FormationBounds(RedStartX, i);
      FormationBounds(BlueStartX, i);
    }
    // the last knight of the first red row and the first blue knight stand on the fronts
    assert Positions(red)[7] == -24.0 && Positions(blue)[0] == 22.0;
    MaxIsLargest(Positions(red));
    MinIsSmallest(Positions(blue));
    ApartArmiesDoNotCharge(Positions(red), Positions(blue), RedStartX + 6.0, BlueStartX - 8.0);
  }

  /** What a frame can do to one knight: it deals no damage, kills nobody, never ends a charge,
      and starts at most one attack. */
  lemma FrameDealsNoDamage(s: KnightState, flankDirection: int, direction: int, go: bool,
                           t: KnightState, enemies: seq<Knight>)
    requires Combat.SameOrAttacked(Rallied(Moved(s, flankDirection, direction), go), t, enemies)
    ensures t.health == s.health && t.isDead == s.isDead
    ensures s.isCharging ==> t.isCharging
    ensures s.inCombat ==> t.inCombat
    ensures s.pendingCombatEnds <= t.pendingCombatEnds <= s.pendingCombatEnds + 1
  {
  }
}
