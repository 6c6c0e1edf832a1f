/**
  The knight: one combatant's health, stamina, state flags and position, and the guarded
  transitions that change them (kotf/js/knight.js).

  Every delayed callback of knight.js (the strike 300 ms after an attack, the end of combat
  1500 ms after it, the end of a block or a dodge, one tick of the retreat interval) is a step
  method that whoever drives the simulation invokes; the fields `strikeTarget` and `pending…`
  record which of those callbacks are still scheduled. Every random draw is a parameter in [0, 1).
  Positions, health and stamina are reals; the height coordinate is constant and left out.
 */
module Knights {

  /** The two armies. A knight's team is fixed at creation. */
  datatype Team = Red | Blue

  const MaxHealth: real := 100.0
  const MaxStamina: real := 100.0
  const StaminaRecovery: real := 0.5
  const WalkSpeed: real := 0.05
  const ChargeSpeed: real := 0.12
  const FlankSpeed: real := 0.08
  const RetreatSpeed: real := 0.1
  const BlockChance: real := 0.3
  const BlockStamina: real := 20.0
  const DodgeChance: real := 0.2
  const DodgeStamina: real := 30.0
  const RetreatHealth: real := 30.0
  const RecoveredHealth: real := 50.0
  const RecoveredStamina: real := 60.0
  const MinDamage: real := 5.0
  const DamageSpread: real := 20.0

  /** Everything about a knight that its methods change, as one value. */
  datatype KnightState = KnightState(
    x: real,
    z: real,
    health: real,
    stamina: real,
    isAttacking: bool,
    isBlocking: bool,
    isDodging: bool,
    isRetreating: bool,
    isDead: bool,
    inCombat: bool,
    isCharging: bool,
    // the target captured by the strike still scheduled 300 ms after an attack, if any
    strikeTarget: Knight?,
    // how many "end of combat", "end of block" and "end of dodge" callbacks are scheduled
    pendingCombatEnds: nat,
    pendingBlockEnds: nat,
    pendingDodgeEnds: nat)

  /** The state of a knight just created at (x, z). */
  function Recruit(x: real, z: real): KnightState
  {
    KnightState(x, z, MaxHealth, MaxStamina, false, false, false, false, false, false, false, null, 0, 0, 0)
  }

  /** Passive stamina recovery: +0.5, only below the maximum. */
  function Recovered(stamina: real): (r: real)
    ensures r >= stamina
    ensures stamina == MaxStamina ==> r == MaxStamina
    ensures stamina < MaxStamina ==> r <= MaxStamina + StaminaRecovery
    ensures r <= stamina + StaminaRecovery
  {
    if stamina < MaxStamina then stamina + StaminaRecovery else stamina
  }

  /** The damage of one strike, drawn when the strike lands. */
  function StrikeDamage(draw: real): (amount: real)
    requires 0.0 <= draw < 1.0
    ensures MinDamage <= amount < MinDamage + DamageSpread
  {
    draw * DamageSpread + MinDamage
  }

  /** Whether `move` has any effect in state `s`. */
  predicate CanMove(s: KnightState)
  {
    !s.isDead && !s.isAttacking && !s.isDodging && !s.isRetreating && !s.inCombat
  }

  /** One call of `move(direction)` by a knight with the given flank direction. */
  function Moved(s: KnightState, flankDirection: int, direction: int): KnightState
  {
    if !CanMove(s) then s
    else
      var speed := if s.isCharging then ChargeSpeed else WalkSpeed;
      s.(x := s.x + direction as real * speed,
         z := s.z + flankDirection as real * FlankSpeed,
         stamina := Recovered(s.stamina))
  }

  /** One call of `charge`: it starts a charge unless one is under way or the knight is attacking. */
  function Charged(s: KnightState): KnightState
  {
    if !s.isCharging && !s.isAttacking then s.(isCharging := true) else s
  }

  /** One call of `attack(target)`: refused while dead or attacking; otherwise it enters combat
      and schedules the strike on `target` and the end of combat. */
  function AfterAttack(s: KnightState, target: Knight): KnightState
  {
    if s.isDead || s.isAttacking then s
    else s.(inCombat := true, isAttacking := true, strikeTarget := target,
            pendingCombatEnds := s.pendingCombatEnds + 1)
  }

  /** `die`: the knight is dead, out of combat and no longer charging. */
  function Died(s: KnightState): KnightState
  {
    s.(isDead := true, inCombat := false, isCharging := false)
  }

  /** `retreat`: starts the retreat interval when not already retreating and health is below 30. */
  function RetreatStarted(s: KnightState): KnightState
  {
    if !s.isRetreating && s.health < RetreatHealth then s.(isRetreating := true) else s
  }

  /** `takeDamage(amount)`: ignored by a dead knight; otherwise health drops by `amount`,
      `die` runs when health reaches 0 or below, and then `retreat` is evaluated. */
  function Damaged(s: KnightState, amount: real): KnightState
  {
    if s.isDead then s
    else
      var hit := s.(health := s.health - amount);
      RetreatStarted(if hit.health <= 0.0 then Died(hit) else hit)
  }

  /** `defendOrTakeDamage(amount)`: block on the first draw, else dodge on the second, else take
      the full damage. Blocking and dodging each schedule the callback that ends them. */
  function Defended(s: KnightState, amount: real, blockDraw: real, dodgeDraw: real): KnightState
  {
    if blockDraw < BlockChance && s.stamina > BlockStamina then
      s.(isBlocking := true, pendingBlockEnds := s.pendingBlockEnds + 1)
    else if dodgeDraw < DodgeChance && s.stamina > DodgeStamina then
      s.(isDodging := true, pendingDodgeEnds := s.pendingDodgeEnds + 1)
    else
      Damaged(s, amount)
  }

  /** Where one tick of the retreat interval moves a knight: red falls back towards -x, blue towards +x. */
  function RetreatDelta(team: Team): real
  {
    if team == Red then -RetreatSpeed else RetreatSpeed
  }

  /** The invariant every knight keeps, stated on its state value. */
  ghost predicate Consistent(s: KnightState)
  {
    // stamina starts at the maximum and recovery never takes it past it
    && s.stamina == MaxStamina
    // only `die` sets isDead, and only once health has reached 0
    && (s.isDead ==> s.health <= 0.0 && !s.inCombat)
    // a strike is scheduled exactly while the knight is attacking
    && (s.isAttacking <==> s.strikeTarget != null)
    // each flag that a callback clears has such a callback scheduled
    && (s.inCombat ==> s.pendingCombatEnds > 0)
    && (s.isBlocking ==> s.pendingBlockEnds > 0)
    && (s.isDodging ==> s.pendingDodgeEnds > 0)
  }

  lemma DiedIsIdempotent(s: KnightState)
    ensures Died(Died(s)) == Died(s)
    ensures s.isDead && !s.inCombat && !s.isCharging ==> Died(s) == s
  {
  }

  /** Defence resolution takes exactly one of three branches, and health changes only in the last. */
  lemma DefendedTakesOneBranch(s: KnightState, amount: real, blockDraw: real, dodgeDraw: real)
    ensures var r := Defended(s, amount, blockDraw, dodgeDraw);
      var blocked := blockDraw < BlockChance && s.stamina > BlockStamina;
      var dodged := !blocked && dodgeDraw < DodgeChance && s.stamina > DodgeStamina;
      && (blocked ==> r.isBlocking && r.health == s.health && r.isDodging == s.isDodging)
      && (dodged ==> r.isDodging && r.health == s.health && r.isBlocking == s.isBlocking)
      && (!blocked && !dodged ==> r == Damaged(s, amount))
  {
  }

  /** Whatever damage does, it keeps the invariant, never raises health for a non-negative
      amount, and leaves the knight dead exactly when it was already dead or health fell to 0. */
  lemma DamagedKeepsConsistent(s: KnightState, amount: real)
    requires Consistent(s)
    ensures var r := Damaged(s, amount);
      && Consistent(r)
      && (amount >= 0.0 ==> r.health <= s.health)
      && (r.isDead <==> s.isDead || s.health - amount <= 0.0)
      && (s.isCharging && !r.isCharging ==> r.isDead)
      && (!s.isDead && !s.isRetreating && r.health < RetreatHealth ==> r.isRetreating)
  {
  }

  /** Once set, `isCharging` is cleared only by `die`: no other transition ends a charge. */
  lemma ChargeLastsUntilDeath(s: KnightState, flankDirection: int, direction: int, target: Knight,
                              amount: real, blockDraw: real, dodgeDraw: real)
    requires s.isCharging
    ensures Moved(s, flankDirection, direction).isCharging
    ensures Charged(s).isCharging
    ensures AfterAttack(s, target).isCharging
    ensures RetreatStarted(s).isCharging
    ensures !Defended(s, amount, blockDraw, dodgeDraw).isCharging ==> Defended(s, amount, blockDraw, dodgeDraw).isDead
    ensures !Damaged(s, amount).isCharging ==> Damaged(s, amount).isDead
  {
  }

  /** A knight of the battle. Its fields are the combat fields of knight.js's `Knight` plus the
      record of which delayed callbacks are still scheduled. */
  class Knight {
    const team: Team
    const flankDirection: int
    var x: real
    var z: real
    var health: real
    var stamina: real
    var isAttacking: bool
    var isBlocking: bool
    var isDodging: bool
    var isRetreating: bool
    var isDead: bool
    var inCombat: bool
    var isCharging: bool
    var strikeTarget: Knight?
    var pendingCombatEnds: nat
    var pendingBlockEnds: nat
    var pendingDodgeEnds: nat

    /** All mutable fields as one value. */
    function State(): KnightState
      reads this
    {
      KnightState(x, z, health, stamina, isAttacking, isBlocking, isDodging, isRetreating,
                  isDead, inCombat, isCharging, strikeTarget,
                  pendingCombatEnds, pendingBlockEnds, pendingDodgeEnds)
    }

    ghost predicate Valid()
      reads this
    {
      Consistent(State())
    }

    constructor (team: Team, startX: real, startZ: real, flankDirection: int)
      ensures Valid()
      ensures this.team == team && this.flankDirection == flankDirection
      ensures State() == Recruit(startX, startZ)
    {
      this.team := team;
      this.flankDirection := flankDirection;
      x, z := startX, startZ;
      health, stamina := MaxHealth, MaxStamina;
      isAttacking, isBlocking, isDodging, isRetreating := false, false, false, false;
      isDead, inCombat, isCharging := false, false, false;
      strikeTarget := null;
      pendingCombatEnds, pendingBlockEnds, pendingDodgeEnds := 0, 0, 0;
    }

    /** Advance by `direction` times the walking or charging speed and drift by the flank
        direction; nothing happens while dead, attacking, dodging, retreating or in combat. */
    method Move(direction: int)
      requires Valid()
      modifies this
      ensures Valid()
      ensures State() == Moved(old(State()), flankDirection, direction)
      ensures !CanMove(old(State())) ==> State() == old(State())
      ensures CanMove(old(State())) ==>
        x == old(x) + direction as real * (if old(isCharging) then ChargeSpeed else WalkSpeed) &&
        z == old(z) + flankDirection as real * FlankSpeed
      ensures stamina == MaxStamina
    {
      if !isDead && !isAttacking && !isDodging && !isRetreating && !inCombat {
        var flankAmount := flankDirection as real * FlankSpeed;
        var speed := if isCharging then ChargeSpeed else WalkSpeed;
        x := x + direction as real * speed;
        z := z + flankAmount;
        RecoverStamina();
      }
    }

    /** Passive recovery, usable in any state; from a valid state it changes nothing. */
    method RecoverStamina()
      modifies this
      ensures State() == old(State()).(stamina := Recovered(old(stamina)))
      ensures old(Valid()) ==> Valid() && stamina == old(stamina)
    {
      if stamina < MaxStamina {
        stamina := stamina + StaminaRecovery;
      }
    }

    /** Start charging, unless already charging or attacking. */
    method Charge()
      requires Valid()
      modifies this
      ensures Valid()
      ensures State() == Charged(old(State()))
      ensures isCharging <==> old(isCharging) || !old(isAttacking)
    {
      if !isCharging && !isAttacking {
        isCharging := true;
      }
    }

    /** Begin an attack on `target`: refused while dead or already attacking. */
    method Attack(target: Knight)
      requires Valid()
      modifies this
      ensures Valid()
      ensures State() == AfterAttack(old(State()), target)
      ensures old(isDead || isAttacking) ==> State() == old(State())
      ensures !old(isDead || isAttacking) ==> inCombat && isAttacking && strikeTarget == target
    {
      if isDead || isAttacking {
        return;
      }
      inCombat := true;
      isAttacking := true;
      strikeTarget := target;
      pendingCombatEnds := pendingCombatEnds + 1;
    }

    /** The callback 300 ms after an attack: the target defends against a strike of
        `StrikeDamage(damageDraw)`, then this knight stops attacking. */
    method StrikeStep(damageDraw: real, blockDraw: real, dodgeDraw: real)
      requires Valid() && isAttacking
      requires strikeTarget != null && strikeTarget.Valid()
      requires 0.0 <= damageDraw < 1.0
      modifies this, strikeTarget
      ensures Valid() && old(strikeTarget).Valid()
      ensures !isAttacking && strikeTarget == null
      ensures old(strikeTarget) != this ==>
        && old(strikeTarget).State() ==
             Defended(old(strikeTarget.State()), StrikeDamage(damageDraw), blockDraw, dodgeDraw)
        && State() == old(State()).(isAttacking := false, strikeTarget := null)
      ensures old(strikeTarget) == this ==>
        State() == Defended(old(State()), StrikeDamage(damageDraw), blockDraw, dodgeDraw)
                     .(isAttacking := false, strikeTarget := null)
      ensures old(strikeTarget).health <= old(strikeTarget.health)
    {
      var target := strikeTarget;
      target.DefendOrTakeDamage(StrikeDamage(damageDraw), blockDraw, dodgeDraw);
      isAttacking := false;
      strikeTarget := null;
    }

    /** The callback 1500 ms after an attack: leave combat. */
    method CombatEndStep()
      requires Valid() && pendingCombatEnds > 0
      modifies this
      ensures Valid()
      ensures State() == old(State()).(inCombat := false, pendingCombatEnds := old(pendingCombatEnds) - 1)
    {
      inCombat := false;
      pendingCombatEnds := pendingCombatEnds - 1;
    }

    /** Block, else dodge, else take the full `amount`. */
    method DefendOrTakeDamage(amount: real, blockDraw: real, dodgeDraw: real)
      requires Valid()
      modifies this
      ensures Valid()
      ensures State() == Defended(old(State()), amount, blockDraw, dodgeDraw)
      ensures amount >= 0.0 ==> health <= old(health)
    {
      if blockDraw < BlockChance && stamina > BlockStamina {
        isBlocking := true;
        pendingBlockEnds := pendingBlockEnds + 1;
      } else if dodgeDraw < DodgeChance && stamina > DodgeStamina {
        isDodging := true;
        pendingDodgeEnds := pendingDodgeEnds + 1;
      } else {
        TakeDamage(amount);
      }
    }

    /** The callback 300 ms after a block. */
    method BlockEndStep()
      requires Valid() && pendingBlockEnds > 0
      modifies this
      ensures Valid()
      ensures State() == old(State()).(isBlocking := false, pendingBlockEnds := old(pendingBlockEnds) - 1)
    {
      isBlocking := false;
      pendingBlockEnds := pendingBlockEnds - 1;
    }

    /** The callback 200 ms after a dodge. */
    method DodgeEndStep()
      requires Valid() && pendingDodgeEnds > 0
      modifies this
      ensures Valid()
      ensures State() == old(State()).(isDodging := false, pendingDodgeEnds := old(pendingDodgeEnds) - 1)
    {
      isDodging := false;
      pendingDodgeEnds := pendingDodgeEnds - 1;
    }

    /** Lose `amount` health, die at 0 or below, then consider retreating. A dead knight ignores it. */
    method TakeDamage(amount: real)
      requires Valid()
      modifies this
      ensures Valid()
      ensures State() == Damaged(old(State()), amount)
      ensures old(isDead) ==> State() == old(State())
      ensures !old(isDead) ==> health == old(health) - amount && (isDead <==> health <= 0.0)
      ensures amount >= 0.0 ==> health <= old(health)
    {
      if isDead {
        return;
      }
      health := health - amount;
      if health <= 0.0 {
        Die();
      }
      Retreat();
    }

    /** Start retreating when not already retreating and health is below 30. */
    method Retreat()
      requires Valid()
      modifies this
      ensures Valid()
      ensures State() == RetreatStarted(old(State()))
    {
      if !isRetreating && health < RetreatHealth {
        isRetreating := true;
      }
    }

    /** One tick of the retreat interval: it ends the retreat once health is above 50 or
        stamina above 60, and moves the knight back one step either way. Since stamina
        always stays at the maximum, every retreat ends on its first tick. */
    method RetreatStep()
      requires Valid() && isRetreating
      modifies this
      ensures Valid()
      ensures State() == old(State()).(
        isRetreating := !(old(health) > RecoveredHealth || old(stamina) > RecoveredStamina),
        x := old(x) + RetreatDelta(team),
        stamina := Recovered(old(stamina)))
      ensures !isRetreating
    {
      if health > RecoveredHealth || stamina > RecoveredStamina {
        isRetreating := false;
      }
      x := x + RetreatDelta(team);
      RecoverStamina();
    }

    /** Die: only called once health has dropped to 0 or below. Calling it again changes nothing. */
    method Die()
      requires Valid() && health <= 0.0
      modifies this
      ensures Valid()
      ensures State() == Died(old(State()))
      ensures old(isDead) && !old(isCharging) ==> State() == old(State())
    {
      isDead := true;
      inCombat := false;
      isCharging := false;
    }
  }

  // ----- rosters -----

  /** The states of a roster's knights, in roster order. */
  function States(ks: seq<Knight>): seq<KnightState>
    reads ks
  {
    seq(|ks|, i requires 0 <= i < |ks| reads ks => ks[i].State())
  }

  /** No knight appears twice. */
  predicate Distinct(ks: seq<Knight>)
  {
    forall i, j :: 0 <= i < j < |ks| ==> ks[i] != ks[j]
  }

  lemma DistinctJoin(a: seq<Knight>, b: seq<Knight>)
    requires Distinct(a) && Distinct(b)
    requires forall k :: k in a ==> k !in b
    ensures Distinct(a + b)
  {
    forall i, j | 0 <= i < j < |a + b| ensures (a + b)[i] != (a + b)[j] {
      if i < |a| && j >= |a| {
        assert (a + b)[i] in a && (a + b)[j] in b;
      }
    }
  }

  lemma DistinctParts(a: seq<Knight>, b: seq<Knight>)
    requires Distinct(a + b)
    ensures Distinct(a) && Distinct(b)
    ensures forall k :: k in a ==> k !in b
  {
    forall i, j | 0 <= i < j < |a| ensures a[i] != a[j] {
      assert a[i] == (a + b)[i] && a[j] == (a + b)[j];
    }
    forall i, j | 0 <= i < j < |b| ensures b[i] != b[j] {
      assert b[i] == (a + b)[|a| + i] && b[j] == (a + b)[|a| + j];
    }
    forall k | k in a ensures k !in b {
      var i :| 0 <= i < |a| && a[i] == k;
      forall j | 0 <= j < |b| ensures b[j] != k {
        assert (a + b)[i] == a[i] && (a + b)[|a| + j] == b[j];
      }
    }
  }
}
