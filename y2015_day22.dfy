/** 2015 day 22: the wizard's duel. Each `Game` transition returns a new
    value; the search pops games from a priority queue and keeps the least
    mana spent on a win. */
module Year2015Day22 {
  import opened Wrappers
  import OV = OrderedVec
  import PQ = PriorityQueue

  const ShieldTurns: nat := 6
  const PoisonTurns: nat := 6
  const RechargeTurns: nat := 5
  const MaxU32: nat := 0xffff_ffff

  datatype Game = Game(
    bossDamage: nat,
    bossHealth: nat,
    drain: nat,
    manaHistory: nat,
    playerHealth: nat,
    playerMana: nat,
    poison: nat,
    recharge: nat,
    shielded: bool,
    shield: nat)

  /** `Game::new`: 50 health, 500 mana, every effect inactive. */
  function NewGame(bossDamage: nat, bossHealth: nat, drain: nat): (g: Game)
    ensures TimersOk(g) && !Active(g)
  {
    Game(bossDamage, bossHealth, drain, 0, 50, 500, PoisonTurns, RechargeTurns, false, ShieldTurns)
  }

  /** A timer runs from 0 up to its TURNS value, at which the effect is off. */
  predicate TimersOk(g: Game) {
    g.shield <= ShieldTurns && g.poison <= PoisonTurns && g.recharge <= RechargeTurns
  }

  predicate Active(g: Game) {
    g.shield < ShieldTurns || g.poison < PoisonTurns || g.recharge < RechargeTurns
  }

  /** The mana the player holds plus the mana already spent. */
  function ManaTotal(g: Game): nat {
    g.playerMana + g.manaHistory
  }

  /** `start_turn`: each active effect ticks once; shield protects this turn,
      poison deals 3 and recharge gives 101 mana. */
  function StartTurn(g: Game): (r: Game)
    ensures TimersOk(g) ==> TimersOk(r)
    ensures r.shield == (if g.shield < ShieldTurns then g.shield + 1 else g.shield)
    ensures r.shielded == (g.shield < ShieldTurns || g.shielded)
    ensures r.poison == (if g.poison < PoisonTurns then g.poison + 1 else g.poison)
    ensures r.bossHealth == (if g.poison < PoisonTurns then Saturating(g.bossHealth, 3) else g.bossHealth)
    ensures r.recharge == (if g.recharge < RechargeTurns then g.recharge + 1 else g.recharge)
    ensures ManaTotal(r) == ManaTotal(g) + (if g.recharge < RechargeTurns then 101 else 0)
    ensures r.manaHistory == g.manaHistory && r.playerHealth == g.playerHealth
    ensures r.bossDamage == g.bossDamage && r.drain == g.drain
  {
    var g1 := if g.shield < ShieldTurns then g.(shielded := true, shield := g.shield + 1) else g;
    var g2 := if g1.poison < PoisonTurns then DamageBoss(g1, 3).(poison := g1.poison + 1) else g1;
    if g2.recharge < RechargeTurns then g2.(playerMana := g2.playerMana + 101, recharge := g2.recharge + 1) else g2
  }

  /** `end_turn`: only the shield's protection ends. */
  function EndTurn(g: Game): (r: Game)
    ensures !r.shielded && r.(shielded := g.shielded) == g
  {
    g.(shielded := false)
  }

  /** `saturating_sub`. */
  function Saturating(x: nat, y: nat): (r: nat)
    ensures r == 0 <==> x <= y
    ensures r > 0 ==> r == x - y
  {
    if x <= y then 0 else x - y
  }

  /** `use_mana`: possible exactly when the player holds that much; the mana
      moves from the purse into the history. */
  function UseMana(g: Game, cost: nat): (r: Option<Game>)
    ensures r.Some? <==> g.playerMana >= cost
    ensures r.Some? ==> ManaTotal(r.value) == ManaTotal(g) && r.value.manaHistory == g.manaHistory + cost
    ensures r.Some? ==> r.value.(playerMana := g.playerMana, manaHistory := g.manaHistory) == g
  {
    if g.playerMana >= cost then Some(g.(playerMana := g.playerMana - cost, manaHistory := g.manaHistory + cost))
    else None
  }

  /** `damage_boss`, saturating at 0. */
  function DamageBoss(g: Game, dmg: nat): (r: Game)
    ensures r.bossHealth == Saturating(g.bossHealth, dmg) && r.(bossHealth := g.bossHealth) == g
  {
    g.(bossHealth := Saturating(g.bossHealth, dmg))
  }

  /** The boss's blow: reduced by 7 under the shield, but never below 1 there. */
  function BossBlow(g: Game): (dmg: nat)
    ensures g.shielded ==> dmg >= 1 && dmg <= g.bossDamage + 1 && dmg + 7 >= g.bossDamage
    ensures !g.shielded ==> dmg == g.bossDamage
  {
    if g.shielded then (if g.bossDamage <= 7 then 1 else g.bossDamage - 7) else g.bossDamage
  }

  /** `damage_player`, saturating at 0. */
  function DamagePlayer(g: Game): (r: Game)
    ensures r.playerHealth == Saturating(g.playerHealth, BossBlow(g)) && r.(playerHealth := g.playerHealth) == g
  {
    g.(playerHealth := Saturating(g.playerHealth, BossBlow(g)))
  }

  /** `drain_health`: the hard mode's loss of `drain` health per player turn. */
  function DrainHealth(g: Game): (r: Game)
    ensures r.playerHealth == Saturating(g.playerHealth, g.drain) && r.(playerHealth := g.playerHealth) == g
  {
    g.(playerHealth := Saturating(g.playerHealth, g.drain))
  }

  function HealPlayer(g: Game, health: nat): (r: Game)
    ensures r.playerHealth == g.playerHealth + health && r.(playerHealth := g.playerHealth) == g
  {
    g.(playerHealth := g.playerHealth + health)
  }

  datatype Spell = MagicMissile | Drain | Shield | Poison | Recharge

  /** The mana each spell costs. */
  function Cost(s: Spell): (c: nat)
    ensures c >= 53
  {
    match s
    case MagicMissile => 53
    case Drain => 73
    case Shield => 113
    case Poison => 173
    case Recharge => 229
  }

  /** The `cast_*` functions: a spell with a lasting effect can be cast only
      while that effect is off, and every spell needs its mana. */
  function Cast(g: Game, s: Spell): (r: Option<Game>)
    ensures r.Some? <==> (g.playerMana >= Cost(s)
                          && (s == Shield ==> g.shield >= ShieldTurns)
                          && (s == Poison ==> g.poison >= PoisonTurns)
                          && (s == Recharge ==> g.recharge >= RechargeTurns))
    ensures r.Some? ==> ManaTotal(r.value) == ManaTotal(g) && r.value.manaHistory == g.manaHistory + Cost(s)
    ensures r.Some? && s == Shield ==> r.value.shield == 0
    ensures r.Some? && s == Poison ==> r.value.poison == 0
    ensures r.Some? && s == Recharge ==> r.value.recharge == 0
    ensures r.Some? && s == MagicMissile ==> r.value.bossHealth == Saturating(g.bossHealth, 4)
    ensures r.Some? && s == Drain ==>
      r.value.bossHealth == Saturating(g.bossHealth, 2) && r.value.playerHealth == g.playerHealth + 2
    ensures r.Some? && TimersOk(g) ==> TimersOk(r.value)
  {
    match s
    case MagicMissile =>
      var paid :- UseMana(g, 53);
      Some(DamageBoss(paid, 4))
    case Drain =>
      var paid :- UseMana(g, 73);
      Some(HealPlayer(DamageBoss(paid, 2), 2))
    case Shield =>
      if g.shield >= ShieldTurns then
        var paid :- UseMana(g, 113);
        Some(paid.(shield := 0))
      else None
    case Poison =>
      if g.poison >= PoisonTurns then
        var paid :- UseMana(g, 173);
        Some(paid.(poison := 0))
      else None
    case Recharge =>
      if g.recharge >= RechargeTurns then
        var paid :- UseMana(g, 229);
        Some(paid.(recharge := 0))
      else None
  }

  // ----- rounds of play -----

  /** What a part of a round leads to. */
  datatype Step = Lost | Won(mana: nat) | Continue(game: Game)

  /** The start of the player's turn for a popped game. */
  function Begin(g: Game): Step {
    var drained := DrainHealth(g);
    if drained.playerHealth == 0 then Lost
    else
      var started := StartTurn(drained);
      if started.bossHealth == 0 then Won(started.manaHistory) else Continue(started)
  }

  /** The player casts `s` in a started turn, then the boss's turn runs. A
      cast that leaves exactly 0 mana is dropped, as the search does. */
  function PlaySpell(g: Game, s: Spell): Step {
    match Cast(g, s)
    case None => Lost
    case Some(cast) =>
      if cast.playerMana == 0 then Lost
      else if cast.bossHealth == 0 then Won(cast.manaHistory)
      else
        var bossTurn := StartTurn(EndTurn(cast));
        if bossTurn.bossHealth == 0 then Won(bossTurn.manaHistory)
        else
          var hurt := DamagePlayer(bossTurn);
          if hurt.playerHealth == 0 then Lost else Continue(EndTurn(hurt))
  }

  /** A full round from a queued game. */
  function Round(g: Game, s: Spell): Step {
    match Begin(g)
    case Continue(started) => PlaySpell(started, s)
    case other => other
  }

  /** Rounds played one spell after another; the game stops at a win or a loss. */
  function Play(init: Game, spells: seq<Spell>): Step {
    if spells == [] then Continue(init)
    else
      match Play(init, spells[..|spells| - 1])
      case Continue(g) => Round(g, spells[|spells| - 1])
      case other => other
  }

  /** Every spell costs at least 53 mana, so the mana spent grows each round,
      and a win costs at least what was already spent. */
  lemma RoundSpends(g: Game, s: Spell)
    ensures Round(g, s).Continue? ==> Round(g, s).game.manaHistory >= g.manaHistory + 53
    ensures Round(g, s).Won? ==> Round(g, s).mana >= g.manaHistory
  {
  }

  lemma {:induction false} PlaySpends(init: Game, spells: seq<Spell>)
    ensures Play(init, spells).Continue? ==> Play(init, spells).game.manaHistory >= init.manaHistory + 53 * |spells|
    ensures Play(init, spells).Won? ==> Play(init, spells).mana >= init.manaHistory
  {
    if spells != [] {
      var prefix := spells[..|spells| - 1];
      PlaySpends(init, prefix);
      if Play(init, prefix).Continue? {
        RoundSpends(Play(init, prefix).game, spells[|spells| - 1]);
      }
    }
  }

  /** The effect timers stay within their bounds through every round. */
  lemma RoundKeepsTimers(g: Game, s: Spell)
    requires TimersOk(g)
    ensures Round(g, s).Continue? ==> TimersOk(Round(g, s).game)
  {
    var b := Begin(g);
    if b.Continue? {
      assert TimersOk(b.game);
      PlaySpellKeepsTimers(b.game, s);
    }
  }

  lemma PlaySpellKeepsTimers(g: Game, s: Spell)
    requires TimersOk(g)
    ensures PlaySpell(g, s).Continue? ==> TimersOk(PlaySpell(g, s).game)
  {
    var cast := Cast(g, s);
    if cast.Some? {
      assert TimersOk(cast.value);
      assert TimersOk(StartTurn(EndTurn(cast.value)));
    }
  }

  lemma {:induction false} PlayKeepsTimers(init: Game, spells: seq<Spell>)
    requires TimersOk(init)
    ensures Play(init, spells).Continue? ==> TimersOk(Play(init, spells).game)
  {
    if spells != [] {
      var prefix := spells[..|spells| - 1];
      PlayKeepsTimers(init, prefix);
      if Play(init, prefix).Continue? {
        RoundKeepsTimers(Play(init, prefix).game, spells[|spells| - 1]);
      }
    }
  }

  // ----- the search -----

  ghost predicate Reachable(init: Game, g: Game) {
    exists spells :: Play(init, spells) == Continue(g)
  }

  ghost predicate WinFor(init: Game, mana: nat) {
    exists spells :: Play(init, spells) == Won(mana)
  }

  /** `best_mana` is still `u32::MAX` or the cost of a real win. */
  ghost predicate BestSound(init: Game, best: nat) {
    best == MaxU32 || (best < MaxU32 && WinFor(init, best))
  }

  ghost predicate QueueSound(q: PQ.PriorityQueue<Game>, init: Game)
    reads q, q.que
  {
    forall k :: 0 <= k < |q.que.items| ==> Reachable(init, q.que.items[k].value)
  }

  /** A game waiting in the queue. */
  ghost predicate Queued(items: seq<PQ.QueueItem<Game>>, g: Game) {
    exists k :: 0 <= k < |items| && items[k].value == g
  }

  /** A win costing `mana` can still be reached from some queued game. */
  ghost predicate Waiting(items: seq<PQ.QueueItem<Game>>, mana: nat) {
    exists k :: 0 <= k < |items| && WinFor(items[k].value, mana)
  }

  /** Every win cheaper than `best` still runs through some queued game. */
  ghost predicate Pending(init: Game, items: seq<PQ.QueueItem<Game>>, best: nat) {
    forall m: nat :: WinFor(init, m) ==> best <= m || Waiting(items, m)
  }

  /** Just after a pop: the win runs through the rest of the queue or through the popped game. */
  ghost predicate PendingOr(init: Game, rest: seq<PQ.QueueItem<Game>>, g: Game, best: nat) {
    forall m: nat :: WinFor(init, m) ==> best <= m || Waiting(rest, m) || WinFor(g, m)
  }

  /** The round casting `s` from `g` has been dealt with: its win is no cheaper
      than `best`, and the game it continues in is queued. */
  ghost predicate Handled(items: seq<PQ.QueueItem<Game>>, best: nat, g: Game, s: Spell) {
    (Round(g, s).Won? ==> best <= Round(g, s).mana) &&
    (Round(g, s).Continue? ==> Queued(items, Round(g, s).game))
  }

  ghost predicate Settled(items: seq<PQ.QueueItem<Game>>, best: nat, g: Game) {
    forall s :: Handled(items, best, g, s)
  }

  lemma PlayOn(init: Game, spells: seq<Spell>, g: Game, s: Spell)
    requires Play(init, spells) == Continue(g)
    ensures Play(init, spells + [s]) == Round(g, s)
  {
    assert (spells + [s])[..|spells|] == spells;
  }

  /** Playing a sequence of spells is its first round followed by the rest. */
  lemma {:induction false} FirstRound(g: Game, spells: seq<Spell>)
    requires spells != []
    ensures Round(g, spells[0]).Continue? ==> Play(g, spells) == Play(Round(g, spells[0]).game, spells[1..])
    ensures !Round(g, spells[0]).Continue? ==> Play(g, spells) == Round(g, spells[0])
  {
    var n := |spells|;
    if n == 1 {
      assert spells[..0] == [];
    } else {
      var prefix := spells[..n - 1];
      FirstRound(g, prefix);
      assert prefix[0] == spells[0];
      if Round(g, spells[0]).Continue? {
        assert prefix[1..] == spells[1..][..n - 2];
      }
    }
  }

  /** A win from `g` costs at least what `g` has spent, and starts with a round
      that either wins it outright or continues to a game it can be won from. */
  lemma WinSplits(g: Game, m: nat)
    requires WinFor(g, m)
    ensures m >= g.manaHistory
    ensures exists s :: Round(g, s) == Won(m) || (Round(g, s).Continue? && WinFor(Round(g, s).game, m))
  {
    var spells :| Play(g, spells) == Won(m);
    PlaySpends(g, spells);
    FirstRound(g, spells);
    var s := spells[0];
    if Round(g, s).Continue? {
      assert Play(Round(g, s).game, spells[1..]) == Won(m);
    }
  }

  /** `games.push(game, game.mana_history)`: a queued game stays reachable, it
      is now queued, and everything queued before still is. */
  method PushReachable(q: PQ.PriorityQueue<Game>, ghost init: Game, g: Game)
    requires q.Valid() && QueueSound(q, init) && Reachable(init, g)
    modifies q.que
    ensures q.Valid() && QueueSound(q, init)
    ensures Queued(q.que.items, g)
    ensures forall x :: Queued(old(q.que.items), x) ==> Queued(q.que.items, x)
  {
    ghost var before := q.que.items;
    var priority := OV.IntKey(g.manaHistory);
    q.Push(g, priority);
    ghost var i := OV.Index(OV.SearchSpec(q.que.key, before, priority));
    forall j | 0 <= j < |q.que.items|
      ensures Reachable(init, q.que.items[j].value)
    {
      if j > i {
        assert q.que.items[j] == before[j - 1];
      } else if j < i {
        assert q.que.items[j] == before[j];
      }
    }
    assert q.que.items[i].value == g;
    forall x | Queued(before, x)
      ensures Queued(q.que.items, x)
    {
      var k :| 0 <= k < |before| && before[k].value == x;
      if k < i {
        assert q.que.items[k] == before[k];
      } else {
        assert q.que.items[k + 1] == before[k];
      }
    }
  }

  /** A win found `mana` into a round from a reachable game is a real win. */
  lemma RoundWin(init: Game, g: Game, s: Spell, mana: nat)
    requires Reachable(init, g) && Round(g, s) == Won(mana)
    ensures WinFor(init, mana)
  {
    var spells :| Play(init, spells) == Continue(g);
    PlayOn(init, spells, g, s);
  }

  lemma RoundContinue(init: Game, g: Game, s: Spell, next: Game)
    requires Reachable(init, g) && Round(g, s) == Continue(next)
    ensures Reachable(init, next)
  {
    var spells :| Play(init, spells) == Continue(g);
    PlayOn(init, spells, g, s);
  }

  /** The body of the loop over the five casts, for one spell. */
  method TrySpell(q: PQ.PriorityQueue<Game>, ghost init: Game, ghost popped: Game, started: Game,
                  s: Spell, best: nat) returns (best': nat)
    requires q.Valid() && QueueSound(q, init) && BestSound(init, best)
    requires Reachable(init, popped) && Begin(popped) == Continue(started)
    modifies q.que
    ensures q.Valid() && QueueSound(q, init) && BestSound(init, best') && best' <= best
    ensures Handled(q.que.items, best', popped, s)
    ensures forall x :: Queued(old(q.que.items), x) ==> Queued(q.que.items, x)
  {
    best' := best;
    assert Round(popped, s) == PlaySpell(started, s);
    var cast := Cast(started, s);
    if cast.None? {
      return;
    }
    var game := cast.value;
    if game.playerMana == 0 {
      return;
    }
    if game.bossHealth == 0 {
      if game.manaHistory < best {
        best' := game.manaHistory;
        RoundWin(init, popped, s, best');
      }
      return;
    }
    game := EndTurn(game);
    game := StartTurn(game);
    if game.bossHealth == 0 {
      if game.manaHistory < best {
        best' := game.manaHistory;
        RoundWin(init, popped, s, best');
      }
      return;
    }
    game := DamagePlayer(game);
    if game.playerHealth == 0 {
      return;
    }
    game := EndTurn(game);
    RoundContinue(init, popped, s, game);
    PushReachable(q, init, game);
  }

  /** The loop over the five casts `possible_games`: afterwards every round
      from the popped game is dealt with. */
  method Expand(q: PQ.PriorityQueue<Game>, ghost init: Game, ghost popped: Game, started: Game,
                best: nat, ghost rest: seq<PQ.QueueItem<Game>>) returns (best': nat)
    requires q.Valid() && QueueSound(q, init) && BestSound(init, best)
    requires Reachable(init, popped) && Begin(popped) == Continue(started)
    requires forall j :: 0 <= j < |rest| ==> Queued(q.que.items, rest[j].value)
    modifies q.que
    ensures q.Valid() && QueueSound(q, init) && BestSound(init, best') && best' <= best
    ensures forall j :: 0 <= j < |rest| ==> Queued(q.que.items, rest[j].value)
    ensures Settled(q.que.items, best', popped)
  {
    best' := best;
    var spells := [MagicMissile, Drain, Shield, Poison, Recharge];
    for k := 0 to |spells|
      invariant q.Valid() && QueueSound(q, init) && BestSound(init, best') && best' <= best
      invariant forall j :: 0 <= j < |rest| ==> Queued(q.que.items, rest[j].value)
      invariant forall j :: 0 <= j < k ==> Handled(q.que.items, best', popped, spells[j])
    {
      best' := TrySpell(q, init, popped, started, spells[k], best');
    }
    AllSpells(q.que.items, best', popped, spells);
  }

  /** The five casts tried are all the spells there are. */
  lemma AllSpells(items: seq<PQ.QueueItem<Game>>, best: nat, g: Game, spells: seq<Spell>)
    requires spells == [MagicMissile, Drain, Shield, Poison, Recharge]
    requires forall j :: 0 <= j < |spells| ==> Handled(items, best, g, spells[j])
    ensures Settled(items, best, g)
  {
    forall s
      ensures Handled(items, best, g, s)
    {
      match s
      case MagicMissile => assert s == spells[0];
      case Drain => assert s == spells[1];
      case Shield => assert s == spells[2];
      case Poison => assert s == spells[3];
      case Recharge => assert s == spells[4];
    }
  }

  /** After a popped game is dealt with, every win cheaper than `best` is
      pending again in the queue. */
  lemma Resume(init: Game, rest: seq<PQ.QueueItem<Game>>, items: seq<PQ.QueueItem<Game>>,
               g: Game, best0: nat, best: nat)
    requires PendingOr(init, rest, g, best0) && best <= best0
    requires forall k :: 0 <= k < |rest| ==> Queued(items, rest[k].value)
    requires g.manaHistory >= best || Settled(items, best, g)
    ensures Pending(init, items, best)
  {
    forall m: nat | WinFor(init, m)
      ensures best <= m || Waiting(items, m)
    {
      if m < best0 {
        if Waiting(rest, m) {
          var k :| 0 <= k < |rest| && WinFor(rest[k].value, m);
          assert Queued(items, rest[k].value);
          var k' :| 0 <= k' < |items| && items[k'].value == rest[k].value;
          assert WinFor(items[k'].value, m);
        } else {
          assert WinFor(g, m);
          WinSplits(g, m);
          if g.manaHistory < best {
            var s :| Round(g, s) == Won(m) || (Round(g, s).Continue? && WinFor(Round(g, s).game, m));
            assert Handled(items, best, g, s);
            if Round(g, s).Continue? {
              var k' :| 0 <= k' < |items| && items[k'].value == Round(g, s).game;
              assert WinFor(items[k'].value, m);
            }
          }
        }
      }
    }
  }

  /** Popping the last queued game leaves it and the rest reachable. */
  lemma PoppedReachable(init: Game, before: seq<PQ.QueueItem<Game>>, rest: seq<PQ.QueueItem<Game>>)
    requires before != [] && rest == before[..|before| - 1]
    requires forall k :: 0 <= k < |before| ==> Reachable(init, before[k].value)
    ensures Reachable(init, before[|before| - 1].value)
    ensures forall k :: 0 <= k < |rest| ==> Reachable(init, rest[k].value)
  {
    forall k | 0 <= k < |rest|
      ensures Reachable(init, rest[k].value)
    {
      assert rest[k] == before[k];
    }
  }

  /** Popping the last queued game leaves each pending win with the rest or with it. */
  lemma Popped(init: Game, before: seq<PQ.QueueItem<Game>>, best: nat)
    requires before != [] && Pending(init, before, best)
    ensures PendingOr(init, before[..|before| - 1], before[|before| - 1].value, best)
  {
    var rest := before[..|before| - 1];
    forall m: nat | WinFor(init, m)
      ensures best <= m || Waiting(rest, m) || WinFor(before[|before| - 1].value, m)
    {
      if best > m {
        WaitingPop(before, rest, m);
      }
    }
  }

  lemma WaitingPop(before: seq<PQ.QueueItem<Game>>, rest: seq<PQ.QueueItem<Game>>, m: nat)
    requires before != [] && rest == before[..|before| - 1] && Waiting(before, m)
    ensures Waiting(rest, m) || WinFor(before[|before| - 1].value, m)
  {
    var k :| 0 <= k < |before| && WinFor(before[k].value, m);
    if k < |rest| {
      assert rest[k] == before[k];
      assert WinFor(rest[k].value, m);
    } else {
      assert k == |before| - 1;
    }
  }

  /** One turn of the `while let Some((game, _)) = games.pop()` loop; `empty`
      says the queue had nothing left to pop. */
  method Turn(games: PQ.PriorityQueue<Game>, ghost init: Game, best: nat) returns (best': nat, empty: bool)
    requires games.Valid() && QueueSound(games, init) && BestSound(init, best)
    requires Pending(init, games.que.items, best)
    modifies games.que
    ensures games.Valid() && QueueSound(games, init) && BestSound(init, best') && best' <= best
    ensures Pending(init, games.que.items, best')
    ensures empty ==> games.que.items == []
  {
    ghost var before := games.que.items;
    var popped := games.Pop();
    if popped.None? {
      return best, true;
    }
    var game := popped.value.0;
    ghost var rest := games.que.items;
    PoppedReachable(init, before, rest);
    Popped(init, before, best);
    best' := Consider(games, init, game, best, rest);
    empty := false;
  }

  /** The body of the loop for a popped game `game`, with `rest` left queued. */
  method Consider(games: PQ.PriorityQueue<Game>, ghost init: Game, game: Game, best: nat,
                  ghost rest: seq<PQ.QueueItem<Game>>) returns (best': nat)
    requires games.Valid() && QueueSound(games, init) && BestSound(init, best)
    requires Reachable(init, game) && games.que.items == rest && PendingOr(init, rest, game, best)
    modifies games.que
    ensures games.Valid() && QueueSound(games, init) && BestSound(init, best') && best' <= best
    ensures Pending(init, games.que.items, best')
  {
    best' := best;
    assert forall j :: 0 <= j < |rest| ==> Queued(games.que.items, rest[j].value);
    if game.manaHistory >= best {
      Resume(init, rest, games.que.items, game, best, best');
      return;
    }
    var started := DrainHealth(game);
    if started.playerHealth == 0 {
      Resume(init, rest, games.que.items, game, best, best');
      return;
    }
    started := StartTurn(started);
    if started.bossHealth == 0 {
      if started.manaHistory < best {
        best' := started.manaHistory;
        assert Round(game, MagicMissile) == Won(best');
        RoundWin(init, game, MagicMissile, best');
      }
      Resume(init, rest, games.que.items, game, best, best');
      return;
    }
    best' := Expand(games, init, game, started, best, rest);
    Resume(init, rest, games.que.items, game, best, best');
  }

  /** `find_best_mana_path`: the queue pops the game with the most mana spent
      first; a game that has already spent at least the best is dropped, and
      `best_mana` only ever falls. The loop runs at most `fuel` times and
      reports whether the queue ran empty. The answer is `u32::MAX` or the
      mana of some real winning sequence of spells, and once the queue has
      run empty no winning sequence of spells costs less. */
  method FindBestManaPath(init: Game, fuel: nat) returns (best: nat, exhausted: bool)
    ensures best <= MaxU32
    ensures best == MaxU32 || WinFor(init, best)
    ensures exhausted ==> forall m: nat :: WinFor(init, m) ==> best <= m
  {
    var games := new PQ.PriorityQueue<Game>();
    assert Play(init, []) == Continue(init);
    PushReachable(games, init, init);
    ghost var k0 :| 0 <= k0 < |games.que.items| && games.que.items[k0].value == init;
    best := MaxU32;
    exhausted := false;
    var budget := fuel;
    while budget > 0 && !exhausted
      invariant fresh(games.que) && games.Valid() && QueueSound(games, init) && BestSound(init, best)
      invariant Pending(init, games.que.items, best)
      invariant exhausted ==> games.que.items == []
    {
      budget := budget - 1;
      best, exhausted := Turn(games, init, best);
    }
  }
}
