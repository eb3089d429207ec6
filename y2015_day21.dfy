/** 2015 day 21: buying a weapon, optional armor and up to two rings, then
    fighting the boss turn by turn; the cheapest win and the dearest loss. */
module Year2015Day21 {

  const PlayerHealth: nat := 100
  const MaxU32: nat := 0xffff_ffff

  datatype Item = Item(armor: nat, cost: nat, damage: nat)

  datatype Creature = Creature(armor: nat, damage: nat, health: nat)

  function ArmorOf(items: seq<Item>): nat {
    if items == [] then 0 else ArmorOf(items[..|items| - 1]) + items[|items| - 1].armor
  }

  function CostOf(items: seq<Item>): nat {
    if items == [] then 0 else CostOf(items[..|items| - 1]) + items[|items| - 1].cost
  }

  function DamageOf(items: seq<Item>): nat {
    if items == [] then 0 else DamageOf(items[..|items| - 1]) + items[|items| - 1].damage
  }

  /** `Creature::from_items`: the items' armor, damage and cost added up. */
  method FromItems(items: seq<Item>, health: nat) returns (c: Creature, cost: nat)
    ensures c == Creature(ArmorOf(items), DamageOf(items), health)
    ensures cost == CostOf(items)
  {
    var damage, armor := 0, 0;
    cost := 0;
    for k := 0 to |items|
      invariant armor == ArmorOf(items[..k])
      invariant cost == CostOf(items[..k])
      invariant damage == DamageOf(items[..k])
    {
      assert items[..k + 1][..k] == items[..k];
      armor := armor + items[k].armor;
      cost := cost + items[k].cost;
      damage := damage + items[k].damage;
    }
    assert items[..|items|] == items;
    c := Creature(armor, damage, health);
  }

  /** Buying one more batch of items adds its stats to the totals. */
  lemma {:induction false} TotalsAppend(a: seq<Item>, b: seq<Item>)
    ensures ArmorOf(a + b) == ArmorOf(a) + ArmorOf(b)
    ensures CostOf(a + b) == CostOf(a) + CostOf(b)
    ensures DamageOf(a + b) == DamageOf(a) + DamageOf(b)
  {
    if b == [] {
      assert a + b == a;
    } else {
      var b' := b[..|b| - 1];
      assert (a + b)[..|a + b| - 1] == a + b';
      TotalsAppend(a, b');
    }
  }

  /** One hit: the attacker's damage beyond the defender's armor, but at least 1. */
  function Hit(attacker: Creature, defender: Creature): (d: nat)
    ensures d >= 1
    ensures d >= attacker.damage - defender.armor
    ensures attacker.damage > defender.armor ==> d == attacker.damage - defender.armor
  {
    if attacker.damage > defender.armor then attacker.damage - defender.armor else 1
  }

  /** The fight round by round: the player strikes, then the boss. */
  function Outcome(playerHealth: nat, bossHealth: nat, playerHit: nat, bossHit: nat): bool
    requires playerHit >= 1 && bossHit >= 1
    decreases bossHealth
  {
    if playerHit >= bossHealth then true
    else if bossHit >= playerHealth then false
    else Outcome(playerHealth - bossHit, bossHealth - playerHit, playerHit, bossHit)
  }

  function Wins(player: Creature, boss: Creature): bool {
    Outcome(player.health, boss.health, Hit(player, boss), Hit(boss, player))
  }

  /** `fight`: true when the player wins. */
  method Fight(player: Creature, boss: Creature) returns (won: bool)
    ensures won == Wins(player, boss)
  {
    var playerHealth, bossHealth := player.health, boss.health;
    var playerHit, bossHit := Hit(player, boss), Hit(boss, player);
    while true
      invariant Outcome(playerHealth, bossHealth, playerHit, bossHit) == Wins(player, boss)
      decreases bossHealth
    {
      if playerHit >= bossHealth {
        return true;
      }
      bossHealth := bossHealth - playerHit;
      if bossHit >= playerHealth {
        return false;
      }
      playerHealth := playerHealth - bossHit;
    }
  }

  /** The blows of `hit` each needed to bring `health` down to 0. */
  function HitsToKill(health: nat, hit: nat): nat
    requires hit >= 1
    decreases health
  {
    if health == 0 then 0
    else if hit >= health then 1
    else 1 + HitsToKill(health - hit, hit)
  }

  /** `HitsToKill` is the rounded-up quotient of health by hit. */
  lemma {:induction false} HitsToKillIsCeiling(health: nat, hit: nat)
    requires hit >= 1
    ensures HitsToKill(health, hit) * hit >= health
    ensures HitsToKill(health, hit) == 0 || (HitsToKill(health, hit) - 1) * hit < health
    decreases health
  {
    if health > hit {
      var n := HitsToKill(health - hit, hit);
      HitsToKillIsCeiling(health - hit, hit);
      assert (n + 1) * hit == n * hit + hit;
    }
  }

  /** The player wins exactly when the first blow kills, or when killing the
      boss takes no more blows than the boss needs: the player strikes first. */
  lemma {:induction false} WinsIffFewerHits(ph: nat, bh: nat, playerHit: nat, bossHit: nat)
    requires playerHit >= 1 && bossHit >= 1
    ensures Outcome(ph, bh, playerHit, bossHit)
      <==> HitsToKill(bh, playerHit) <= 1 || HitsToKill(bh, playerHit) <= HitsToKill(ph, bossHit)
    decreases bh
  {
    if playerHit >= bh {
    } else if bossHit >= ph {
      assert HitsToKill(bh - playerHit, playerHit) >= 1;
    } else {
      WinsIffFewerHits(ph - bossHit, bh - playerHit, playerHit, bossHit);
      assert HitsToKill(bh - playerHit, playerHit) >= 1;
    }
  }

  lemma {:induction false} HitsToKillMonotone(health: nat, health': nat, hit: nat)
    requires hit >= 1 && health <= health'
    ensures HitsToKill(health, hit) <= HitsToKill(health', hit)
    decreases health
  {
    if health > hit {
      HitsToKillMonotone(health - hit, health' - hit, hit);
    }
  }

  lemma {:induction false} HitsToKillAntitone(health: nat, hit: nat, hit': nat)
    requires 1 <= hit <= hit'
    ensures HitsToKill(health, hit') <= HitsToKill(health, hit)
    decreases health
  {
    if health > hit' {
      HitsToKillAntitone(health - hit', hit, hit');
      HitsToKillMonotone(health - hit', health - hit, hit);
    }
  }

  /** More damage never turns a win into a loss. */
  lemma MoreDamageStillWins(player: Creature, boss: Creature, damage: nat)
    requires Wins(player, boss) && damage >= player.damage
    ensures Wins(player.(damage := damage), boss)
  {
    var stronger := player.(damage := damage);
    WinsIffFewerHits(player.health, boss.health, Hit(player, boss), Hit(boss, player));
    WinsIffFewerHits(stronger.health, boss.health, Hit(stronger, boss), Hit(boss, stronger));
    HitsToKillAntitone(boss.health, Hit(player, boss), Hit(stronger, boss));
  }

  /** More armor never turns a win into a loss. */
  lemma MoreArmorStillWins(player: Creature, boss: Creature, armor: nat)
    requires Wins(player, boss) && armor >= player.armor
    ensures Wins(player.(armor := armor), boss)
  {
    var tougher := player.(armor := armor);
    WinsIffFewerHits(player.health, boss.health, Hit(player, boss), Hit(boss, player));
    WinsIffFewerHits(tougher.health, boss.health, Hit(tougher, boss), Hit(boss, tougher));
    HitsToKillAntitone(player.health, Hit(boss, tougher), Hit(boss, player));
  }

  // ----- the shop -----

  const Weapons: seq<Item> := [Item(0, 8, 4), Item(0, 10, 5), Item(0, 25, 6), Item(0, 40, 7), Item(0, 74, 8)]
  const Armors: seq<Item> := [Item(1, 13, 0), Item(2, 31, 0), Item(3, 53, 0), Item(4, 75, 0), Item(5, 102, 0)]
  const Rings: seq<Item> := [Item(0, 25, 1), Item(0, 50, 2), Item(0, 100, 3), Item(1, 20, 0), Item(2, 40, 0), Item(3, 80, 0)]

  /** The ring choices in the loops' order: none, each single ring, then
      each pair i < j. */
  function RingChoices(): (r: seq<seq<Item>>)
    ensures |r| == 22
  {
    [[]]
    + seq(6, k requires 0 <= k < 6 => [Rings[k]])
    + seq(15, k requires 0 <= k < 15 => [Rings[PairFirst(k)], Rings[PairSecond(k)]])
  }

  /** The k-th pair (i, j) with i < j of six rings, in loop order. */
  function PairFirst(k: nat): (i: nat)
    requires k < 15
    ensures i < 5
  {
    if k < 5 then 0 else if k < 9 then 1 else if k < 12 then 2 else if k < 14 then 3 else 4
  }

  function PairSecond(k: nat): (j: nat)
    requires k < 15
    ensures PairFirst(k) < j < 6
  {
    var i := PairFirst(k);
    var start := if i == 0 then 0 else if i == 1 then 5 else if i == 2 then 9 else if i == 3 then 12 else 14;
    k - start + i + 1
  }

  /** Every ordered pair of distinct rings appears once among the choices. */
  lemma PairsCovered(i: nat, j: nat)
    requires i < j < 6
    ensures exists k :: 0 <= k < 15 && PairFirst(k) == i && PairSecond(k) == j
  {
    var start := if i == 0 then 0 else if i == 1 then 5 else if i == 2 then 9 else if i == 3 then 12 else 14;
    var k := start + j - i - 1;
    assert PairFirst(k) == i && PairSecond(k) == j;
  }

  /** All loadouts for one weapon: no armor, then each armor, each with every
      ring choice. */
  function WeaponLoadouts(w: Item): (r: seq<seq<Item>>)
    ensures |r| == 6 * 22
  {
    seq(6 * 22, k requires 0 <= k < 6 * 22 =>
      [w] + (if k / 22 == 0 then [] else [Armors[k / 22 - 1]]) + RingChoices()[k % 22])
  }

  function Loadouts(): (r: seq<seq<Item>>)
    ensures |r| == 5 * 6 * 22
  {
    seq(5 * 6 * 22, k requires 0 <= k < 5 * 6 * 22 => WeaponLoadouts(Weapons[k / (6 * 22)])[k % (6 * 22)])
  }

  /** The loadout a weapon, an optional armor and a ring choice make. */
  lemma LoadoutAt(w: nat, a: nat, r: nat)
    requires w < 5 && a < 6 && r < 22
    ensures Loadouts()[w * 132 + a * 22 + r]
      == [Weapons[w]] + (if a == 0 then [] else [Armors[a - 1]]) + RingChoices()[r]
  {
    var k := w * 132 + a * 22 + r;
    var j := a * 22 + r;
    DivModUnique(k, 132, w, j);
    DivModUnique(j, 22, a, r);
    assert Loadouts()[k] == WeaponLoadouts(Weapons[w])[j];
    assert WeaponLoadouts(Weapons[w])[j]
      == [Weapons[w]] + (if a == 0 then [] else [Armors[a - 1]]) + RingChoices()[r];
  }

  lemma DivModUnique(t: int, c: int, q: int, m: int)
    requires c > 0 && 0 <= m < c && t == q * c + m
    ensures t / c == q && t % c == m
  {
    var d := q - t / c;
    assert d * c == t % c - m by {
      assert t == (t / c) * c + t % c;
      assert q * c - (t / c) * c == d * c;
    }
  }

  /** Every loadout holds exactly one weapon first, then at most one armor
      and at most two rings. */
  lemma LoadoutShape(k: nat)
    requires k < |Loadouts()|
    ensures var items := Loadouts()[k];
      2 <= |items| + 1 <= 5 && items[0] in Weapons
      && (forall i :: 1 <= i < |items| ==> items[i] in Armors || items[i] in Rings)
  {
    var w, a, r := k / 132, (k % 132) / 22, (k % 132) % 22;
    assert k == w * 132 + a * 22 + r;
    LoadoutAt(w, a, r);
  }

  /** The fight a loadout gives against the boss. */
  predicate WinsWith(items: seq<Item>, boss: Creature) {
    Wins(Creature(ArmorOf(items), DamageOf(items), PlayerHealth), boss)
  }

  /** The cost of the cheapest winning loadout, or `u32::MAX` when none wins. */
  ghost predicate BestOf(boss: Creature, loadouts: seq<seq<Item>>, best: nat) {
    (forall k :: 0 <= k < |loadouts| && WinsWith(loadouts[k], boss) ==> best <= CostOf(loadouts[k]))
    && (best == MaxU32 || exists k :: 0 <= k < |loadouts| && best == CostOf(loadouts[k]) && WinsWith(loadouts[k], boss))
  }

  /** The cost of the dearest losing loadout, or 0 when none loses. */
  ghost predicate WorstOf(boss: Creature, loadouts: seq<seq<Item>>, worst: nat) {
    (forall k :: 0 <= k < |loadouts| && !WinsWith(loadouts[k], boss) ==> CostOf(loadouts[k]) <= worst)
    && (worst == 0 || exists k :: 0 <= k < |loadouts| && worst == CostOf(loadouts[k]) && !WinsWith(loadouts[k], boss))
  }

  lemma BestStep(boss: Creature, loadouts: seq<seq<Item>>, best: nat, items: seq<Item>, best': nat)
    requires BestOf(boss, loadouts, best)
    requires best' == if WinsWith(items, boss) && CostOf(items) < best then CostOf(items) else best
    ensures BestOf(boss, loadouts + [items], best')
  {
    var s := loadouts + [items];
    assert s[|loadouts|] == items;
    assert forall k :: 0 <= k < |loadouts| ==> s[k] == loadouts[k];
  }

  lemma WorstStep(boss: Creature, loadouts: seq<seq<Item>>, worst: nat, items: seq<Item>, worst': nat)
    requires WorstOf(boss, loadouts, worst)
    requires worst' == if !WinsWith(items, boss) && CostOf(items) > worst then CostOf(items) else worst
    ensures WorstOf(boss, loadouts + [items], worst')
  {
    var s := loadouts + [items];
    assert s[|loadouts|] == items;
    assert forall k :: 0 <= k < |loadouts| ==> s[k] == loadouts[k];
  }

  /** `main`'s loops: a win can only lower `best_cost`, a loss can only raise
      `worst_cost`. */
  method BestAndWorst(boss: Creature) returns (best: nat, worst: nat)
    ensures BestOf(boss, Loadouts(), best)
    ensures WorstOf(boss, Loadouts(), worst)
  {
    best, worst := ScanLoadouts(boss, Loadouts());
  }

  /** The loop body of `main` over the given loadouts, in order. */
  method ScanLoadouts(boss: Creature, loadouts: seq<seq<Item>>) returns (best: nat, worst: nat)
    ensures BestOf(boss, loadouts, best)
    ensures WorstOf(boss, loadouts, worst)
  {
    best, worst := MaxU32, 0;
    for k := 0 to |loadouts|
      invariant BestOf(boss, loadouts[..k], best)
      invariant WorstOf(boss, loadouts[..k], worst)
    {
      var items := loadouts[k];
      ghost var best0, worst0 := best, worst;
      var player, cost := FromItems(items, PlayerHealth);
      var won := Fight(player, boss);
      if won {
        if cost < best {
          best := cost;
        }
      } else {
        if cost > worst {
          worst := cost;
        }
      }
      assert loadouts[..k + 1] == loadouts[..k] + [items];
      BestStep(boss, loadouts[..k], best0, items, best);
      WorstStep(boss, loadouts[..k], worst0, items, worst);
    }
    assert loadouts[..|loadouts|] == loadouts;
  }
}
