# Knights of the Field — battle engine model

This project models the battle engine of `kotf`, a browser simulation in which two armies of
64 knights (red and blue) march towards each other, break into a charge when their frontlines
come within 20 units, and then fight. Every living knight not already in combat attacks the
nearest enemy within 3 units, if there is one; failing that, once an ally is in combat, it
attacks its nearest living enemy within 3 units. A strike lands 300 ms later. The defender blocks, dodges or takes 5 to 25 damage,
dies at 0 health and retreats below 30.

The model has three modules:

- `Knights` (`knights.dfy`, from `kotf/js/knight.js`): the knight as a class whose fields are
  the combat fields of knight.js's `Knight`. The transitions that knight.js's methods share
  are also functions on a `KnightState` value: `Moved`, `Charged`, `AfterAttack`, `Defended`,
  `Damaged`, `RetreatStarted` and `Died`. The contracts of `Move`, `Charge`, `Attack`,
  `DefendOrTakeDamage`, `TakeDamage`, `Retreat` and `Die` tie the new state to those
  functions. The step methods (`StrikeStep`, `CombatEndStep`, `BlockEndStep`, `DodgeEndStep`,
  `RetreatStep`) state their new state field by field instead. Every delayed callback of
  knight.js (the strike, the end of combat, the end of a block or a dodge, one tick of the
  retreat interval) is such a step method. Fields `strikeTarget` and `pending…` record which
  of those callbacks are still scheduled. The invariant `Valid()` ties the flags to those
  pending callbacks. It also states that stamina stays at the maximum and that a dead knight
  has health at or below 0 and is out of combat.
- `Combat` (`combat.dfy`, from `kotf/js/combat.js`): the two target searches, `NearestEnemy`
  (`findNearestEnemy`) and `NearbyBattle` (`findNearbyBattle`), and the choice between them,
  `Target`. Each search is combat.js's loop, proved equal to a left fold `Scan`. Lemmas state
  what that fold computes: the first enemy at the least (discounted) distance, found exactly
  when one lies within the radius. The combat pass is also here.
- `Battle` (`battle.dfy`, from `kotf/js/main.js`): the formations (`FormationX`,
  `FormationZ`), the charge trigger `ShouldCharge`, the two rosters as the constant fields
  of a `Battlefield` (main.js assigns them once, at load), and
  one animation frame in main.js's order: march, charge check, combat pass.

Random draws (`Math.random()`) are parameters in [0, 1). Distances are compared squared,
which orders non-negative distances as the square root does. The radius 3 becomes 9, the
in-combat discount 0.8 becomes 0.64, and the reach 3 / 0.8 becomes 14.0625.

## Model

| member | source | states |
|---|---|---|
| Knights.Recovered | kotf/js/knight.js:42-46 | recovery never lowers stamina and adds at most 0.5; it leaves a full knight at 100 and takes a knight below 100 to at most 100.5 |
| Knights.StrikeDamage | kotf/js/knight.js:68 | a strike deals at least 5 and less than 25 damage for any draw in [0, 1) |
| Knights.DiedIsIdempotent | kotf/js/knight.js:125-128 | dying twice is dying once; a knight already dead, out of combat and not charging is unchanged by `die` |
| Knights.DefendedTakesOneBranch | kotf/js/knight.js:77-91 | defence takes exactly one branch: block (health kept), else dodge (health kept), else full damage |
| Knights.DamagedKeepsConsistent | kotf/js/knight.js:93-123 | damage keeps the knight invariant, never raises health for a non-negative amount, kills exactly when health falls to 0 or below, ends a charge only by death, and starts a retreat below 30 health |
| Knights.ChargeLastsUntilDeath | kotf/js/knight.js:48-53 | once charging, no move, charge, attack, retreat or defence ends the charge unless the knight dies |
| Knights.Knight.constructor | kotf/js/knight.js:5-29 | a new knight has full health and stamina, no flag set, its team, flank direction and start position |
| Knights.Knight.Move | kotf/js/knight.js:31-40 | the new state is `Moved`: a knight that is dead, attacking, dodging, retreating or in combat does not move; otherwise x advances by direction times 0.12 (charging) or 0.05, z by flank direction times 0.08 |
| Knights.Knight.RecoverStamina | kotf/js/knight.js:42-46 | stamina rises by 0.5 only below 100; from a valid state nothing changes |
| Knights.Knight.Charge | kotf/js/knight.js:48-53 | the new state is `Charged`: the knight is charging afterwards exactly when it was charging or was not attacking |
| Knights.Knight.Attack | kotf/js/knight.js:55-74 | the new state is `AfterAttack`: a dead or attacking knight is unchanged; otherwise it is in combat, attacking, and has a strike on the target and the end of combat scheduled |
| Knights.Knight.StrikeStep | kotf/js/knight.js:67-70 | the scheduled strike: the target defends against the drawn damage (its health does not rise), then the attacker stops attacking |
| Knights.Knight.CombatEndStep | kotf/js/knight.js:72-74 | the scheduled end of combat clears `inCombat` and nothing else |
| Knights.Knight.DefendOrTakeDamage | kotf/js/knight.js:77-91 | the new state is `Defended`: block on a draw below 0.3 with stamina above 20, else dodge on a draw below 0.2 with stamina above 30, else take the damage; health never rises |
| Knights.Knight.BlockEndStep | kotf/js/knight.js:80-82 | the scheduled end of a block clears `isBlocking` and nothing else |
| Knights.Knight.DodgeEndStep | kotf/js/knight.js:85-87 | the scheduled end of a dodge clears `isDodging` and nothing else |
| Knights.Knight.TakeDamage | kotf/js/knight.js:93-106 | the new state is `Damaged`: a dead knight is unchanged; otherwise health drops by the amount, the knight is dead exactly when health is at or below 0, and the retreat check follows |
| Knights.Knight.Retreat | kotf/js/knight.js:108-113 | the new state is `RetreatStarted`: a retreat starts only when not already retreating and health is below 30 |
| Knights.Knight.RetreatStep | kotf/js/knight.js:114-121 | one tick moves a red knight 0.1 towards -x and a blue one towards +x, and ends the retreat when health is above 50 or stamina above 60, which with full stamina is always |
| Knights.Knight.Die | kotf/js/knight.js:125-129 | the new state is `Died`: the knight is dead, out of combat and not charging; a repeated call changes nothing |
| Combat.ScanFindsFirstMinimum | kotf/js/combat.js:38-50 | the closest-so-far walk ends with nothing exactly when no enemy is eligible, else with an eligible enemy at the least distance and strictly closer than every eligible enemy before it |
| Combat.ScanKeepsMinimum | kotf/js/combat.js:44-47 | walking again from a candidate no eligible enemy beats keeps it |
| Combat.ScanAlliesIsOneScan | kotf/js/combat.js:57-70 | the per-ally repetition of the walk equals one walk as soon as one ally is in combat, and finds nothing otherwise |
| Combat.NearestEnemyIsFirstClosest | kotf/js/combat.js:34-51 | the enemy found is living, not retreating, within 3 after the in-combat discount, at the least discounted distance, and the first such in list order |
| Combat.NearestEnemyFoundIff | kotf/js/combat.js:34-51 | an enemy is found exactly when some living, non-retreating enemy lies within 3 after the discount |
| Combat.NearestEnemyReach | kotf/js/combat.js:40-50 | an enemy in combat is chosen only within 3.75, any other only within 3 |
| Combat.DiscountNeverExcludes | kotf/js/combat.js:40-50 | an eligible enemy within 3 by raw distance guarantees that some enemy is found |
| Combat.EngagedEnemyPreferred | kotf/js/combat.js:42-47 | when an enemy is found, an eligible enemy in combat at a positive raw distance no larger than the found enemy's means the found enemy is also in combat: an engaged enemy is never passed over for an idle one |
| Combat.NearestLivingIsFirstClosest | kotf/js/combat.js:60-72 | the walk over living enemies finds the first living enemy at the least distance, exactly when one lies within 3 |
| Combat.NearbyBattleIgnoresWhichAllies | kotf/js/combat.js:54-73 | `NearbyBattle` (`findNearbyBattle`) finds nothing unless some ally is in combat (`AnyInCombat`), and otherwise the knight's own `NearestLiving` enemy within 3, whichever allies fight |
| Combat.FallbackTargetIsRetreating | kotf/js/combat.js:3-16 | when the first search fails, whatever the fallback finds is a retreating enemy |
| Combat.TargetIsLivingEnemy | kotf/js/combat.js:3-16 | `Target` gives a target only to a knight above 0 health and not in combat, and it is a living enemy from the list; for such a knight it is `NearestEnemy` if that finds one, else `NearestLiving` if some ally is in combat, else nothing |
| Combat.FindNearestEnemy | kotf/js/combat.js:34-51 | the loop returns the enemy `NearestEnemy` names, or null |
| Combat.FindNearbyBattle | kotf/js/combat.js:54-73 | the nested loops return the enemy `NearbyBattle` names, or null |
| Combat.Engage | kotf/js/combat.js:4-15 | the knight attacks the enemy `Target` picks and is otherwise unchanged: a knight at 0 health or in combat is skipped; otherwise it attacks the nearest enemy, else the nearby battle's enemy, else nothing |
| Combat.EngagedAsPassOutcome | kotf/js/combat.js:4-15 | the knight's `Engage` result is the `PassOutcome` of its state, with the ally-in-combat test taken on the army as it stands at its turn |
| Combat.PassOutcomeIsSameOrAttacked | kotf/js/combat.js:4-15 | every `PassOutcome` leaves the knight unchanged or attacking one enemy from the list |
| Combat.OutcomeUpToStep | kotf/js/combat.js:4-15 | a turn changes only its own knight, so the turns already taken keep their outcome |
| Combat.HalfOutcomeIsSameOrAttacked | kotf/js/combat.js:4-16 | after a half of the pass every knight is unchanged or has started one attack on an enemy |
| Combat.TakeTurn | kotf/js/combat.js:4-15 | turn i of the pass: knight i ends as `PassOutcome` says, with the ally test on the army as it stands at that turn (`OutcomeUpTo` grows from i to i + 1); the knights after i and the enemies are untouched |
| Combat.TeamPass | kotf/js/combat.js:4-16 | every knight of the roster ends as `HalfOutcome` says: a knight at 0 health or in combat is unchanged; otherwise it attacks its `NearestEnemy`; failing that it attacks its `NearestLiving` enemy if some knight of its army is in combat at its turn, earlier turns of the pass included; otherwise it is unchanged; enemies are unchanged; each knight is unchanged or has started one attack on an enemy |
| Combat.CheckForCombat | kotf/js/combat.js:3-31 | red knights engage blue ones exactly as `HalfOutcome` states, against blue as it was at the start; then blue knights engage red ones, against red as the red half left it; each knight is unchanged or attacks one enemy |
| Battle.FormationIsInjective | kotf/js/main.js:16-25 | `FormationX` and `FormationZ` put no two knights of one army on the same spot |
| Battle.FormationBounds | kotf/js/main.js:16-25 | `FormationX` lies in [startX - 8, startX + 6] and `FormationZ` in [-4, 10] |
| Battle.FlankDirection | kotf/js/main.js:19-20 | the flank direction is -1, 0 or 1, and nonzero exactly when the first draw is below 0.3 |
| Battle.SpawnKnights | kotf/js/main.js:11-33 | 64 fresh, distinct knights; knight i stands at column i mod 8 and row i div 8 with the flank its draws give |
| Battle.SpawnArmies | kotf/js/main.js:35-36 | both rosters: disjoint and valid, in `Formation` around x = -30 and x = +30 with the drawn flanks, fronts too far apart for `ShouldCharge` |
| Battle.MaxIsLargest | kotf/js/main.js:47 | the red frontline is the largest x, and some knight stands on it |
| Battle.MinIsSmallest | kotf/js/main.js:48 | the blue frontline is the smallest x, and some knight stands on it |
| Battle.ApartArmiesDoNotCharge | kotf/js/main.js:46-56 | `ShouldCharge` is false for armies whose every red x is 20 or more behind every blue x |
| Battle.ChargeArmy | kotf/js/main.js:38-44 | every knight's new state is `Rallied` of its old one: every living knight that is not attacking is charging afterwards; no other field changes |
| Battle.MarchArmy | kotf/js/main.js:61-62 | every knight of the roster moves once in the given direction |
| Battle.Battlefield.constructor | kotf/js/main.js:35-36 | the rosters are valid, in `Formation` around x = -30 (red) and x = +30 (blue) with their drawn flanks, and the charge trigger does not fire at the start |
| Battle.Battlefield.CheckChargeCondition | kotf/js/main.js:46-56 | every knight's new state is `Rallied` with the outcome of `ShouldCharge`: when the frontlines are less than 20 apart every living, non-attacking knight charges; otherwise nothing changes |
| Battle.Battlefield.March | kotf/js/main.js:61-62 | red knights move towards +x, blue ones towards -x, and the new positions are the marched positions |
| Battle.Battlefield.Advance | kotf/js/main.js:61-64 | march then charge check: each knight's state is `Moved` in its army's direction, then rallied when the marched frontlines are within 20 |
| Battle.Battlefield.Animate | kotf/js/main.js:58-65 | one frame: each knight moves and charges if the marched frontlines are within 20 (`MarchedStates`); then the red half and the blue half of the pass end exactly as `HalfOutcome` describes from those states, and each knight is unchanged or attacks one enemy |
| Battle.SpawnedArmiesDoNotCharge | kotf/js/main.js:35-36 | freshly spawned armies have their frontlines at x = -24 (red) and x = 22 (blue), so `ShouldCharge` does not fire |
| Battle.FrameDealsNoDamage | kotf/js/main.js:58-65 | a frame changes no health, kills nobody, ends no charge and no combat, and schedules at most one end of combat per knight |

## Left out

- Rendering, the scene, camera, mesh rotation, sword swing, the red hit flash, mesh removal after death and `console.log` are presentation and are not modelled; `scene.js` is not part of this model.
- The height coordinate (always 1) is left out; positions are x and z only.
- Timers and `setInterval` are step methods that the caller invokes. The model does not fix when they fire relative to frames, only what each one does when it fires.
- `requestAnimationFrame` recursion is one `Animate` call per frame.
- Floating point is modelled with exact reals: rounding of the 0.05/0.12/0.08 steps and of the distance square root is not captured.
- The `color` parameter of `spawnKnights`, the `direction` parameter of `spawnKnights` and of `charge`, and the `color` of the knight are unused by the combat logic and are dropped.
- Battle.SpawnKnights: the two random draws of each knight are a `FlankDraws` pair per knight; the second draw is present even when unused.
- Knights.Knight.Die: requires health at or below 0, which its only caller (`takeDamage`) guarantees; knight.js's `die` has no guard.
- Battle.MarchArmy: requires the roster to hold distinct knights, which the spawned rosters do.
- Combat.TeamPass: requires a roster of distinct knights, none of them in the enemy list; the spawned rosters are like that.
- Combat.CheckForCombat: requires the two rosters together to hold distinct knights, which the spawned rosters do; a knight in both rosters is not described.
- Battle.Battlefield.Animate: it states the moves, the charge and the attacks, not health; that a frame leaves health unchanged is the separate lemma `FrameDealsNoDamage`.
- Nothing stops a dead knight from acting: a knight at 0 health can still block, dodge, retreat and finish a strike it had already scheduled, and death does not cancel a pending strike. The model does the same.
