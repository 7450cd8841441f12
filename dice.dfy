/** The fate dice (src/modules/dice.py): the table that maps a roll of
    1..100 onto an effect and a message, and the application of the effect
    to a combatant. The roll itself, drawn at random during an on-screen
    animation, is a parameter. */
module Dice {
  import opened Utils
  import opened Player

  /** The actions of the table, each a change to one combatant attribute
      (or none). */
  datatype DiceEffect = SkipTurn | GainStamina(amount: nat) | LoseLife | NoEffect | TempShield

  /** One table row: rolls in [lo, hi) give `effect` and `message`. */
  datatype DiceEvent = DiceEvent(lo: int, hi: int, effect: DiceEffect, message: string)

  predicate InRange(e: DiceEvent, roll: int) {
    e.lo <= roll < e.hi
  }

  const DiceEvents: seq<DiceEvent> := [
    DiceEvent(1, 6, SkipTurn, "Perdiste tu turno."),
    DiceEvent(6, 36, GainStamina(1), "Ganaste 1 punto de estamina."),
    DiceEvent(36, 46, GainStamina(2), "Ganaste 2 puntos de estamina."),
    DiceEvent(46, 51, GainStamina(3), "Ganaste 3 puntos de estamina."),
    DiceEvent(51, 56, LoseLife, "Perdiste 1 vida."),
    DiceEvent(56, 96, NoEffect, "No pasa nada."),
    DiceEvent(96, 101, TempShield, "Obtienes un escudo temporal.")
  ]

  const UnknownMessage := "Evento desconocido."

  /** The index of the first row whose range holds the roll. */
  function FirstMatch(events: seq<DiceEvent>, roll: int): (r: Option<nat>)
    ensures r.Some? ==> r.value < |events| && InRange(events[r.value], roll)
    ensures r.Some? ==> forall j :: 0 <= j < r.value ==> !InRange(events[j], roll)
    ensures r.None? <==> forall j :: 0 <= j < |events| ==> !InRange(events[j], roll)
    decreases |events|
  {
    if events == [] then None
    else if InRange(events[0], roll) then Some(0)
    else
      match FirstMatch(events[1..], roll)
      case None => None
      case Some(i) => Some(i + 1)
  }

  /** _get_dice_event on values: the effect and message of the first
      matching row, or no effect with the unknown-event message. */
  function EventFor(roll: int): (DiceEffect, string) {
    match FirstMatch(DiceEvents, roll)
    case Some(i) => (DiceEvents[i].effect, DiceEvents[i].message)
    case None => (NoEffect, UnknownMessage)
  }

  /** _get_dice_event: a scan of the table that returns at the first row
      whose range holds the roll. */
  method GetDiceEvent(roll: int) returns (effect: DiceEffect, message: string)
    ensures (effect, message) == EventFor(roll)
  {
    for i := 0 to |DiceEvents|
      invariant forall j :: 0 <= j < i ==> !InRange(DiceEvents[j], roll)
    {
      var e := DiceEvents[i];
      if e.lo <= roll < e.hi {
        FirstMatchIs(DiceEvents, roll, i);
        return e.effect, e.message;
      }
    }
    return NoEffect, UnknownMessage;
  }

  lemma {:induction false} FirstMatchIs(events: seq<DiceEvent>, roll: int, i: nat)
    requires i < |events| && InRange(events[i], roll)
    requires forall j :: 0 <= j < i ==> !InRange(events[j], roll)
    ensures FirstMatch(events, roll) == Some(i)
  {
    var r := FirstMatch(events, roll);
    assert InRange(events[i], roll);
    assert r.Some?;
    assert InRange(events[r.value], roll);
  }

  /** Some row's range holds the roll. */
  predicate Covered(roll: int) {
    exists k :: 0 <= k < |DiceEvents| && InRange(DiceEvents[k], roll)
  }

  /** The seven ranges follow each other without gap or overlap and cover
      exactly 1..100. */
  lemma RangesPartition()
    ensures DiceEvents[0].lo == 1 && DiceEvents[|DiceEvents| - 1].hi == 101
    ensures forall k :: 0 <= k < |DiceEvents| - 1 ==> DiceEvents[k].hi == DiceEvents[k + 1].lo
    ensures forall k :: 0 <= k < |DiceEvents| ==> DiceEvents[k].lo < DiceEvents[k].hi
    ensures forall roll :: 1 <= roll <= 100 <==> Covered(roll)
    ensures forall roll, i, j ::
      (0 <= i < |DiceEvents| && 0 <= j < |DiceEvents| && InRange(DiceEvents[i], roll) && InRange(DiceEvents[j], roll)) ==> i == j
  {
    forall roll | 1 <= roll <= 100
      ensures Covered(roll)
    {
      var k := if roll < 6 then 0 else if roll < 36 then 1 else if roll < 46 then 2 else if roll < 51 then 3
               else if roll < 56 then 4 else if roll < 96 then 5 else 6;
      assert InRange(DiceEvents[k], roll);
    }
  }

  /** What each roll brings: the table, read off range by range. */
  lemma EventTable(roll: int)
    ensures 1 <= roll <= 5 ==> EventFor(roll) == (SkipTurn, "Perdiste tu turno.")
    ensures 6 <= roll <= 35 ==> EventFor(roll) == (GainStamina(1), "Ganaste 1 punto de estamina.")
    ensures 36 <= roll <= 45 ==> EventFor(roll) == (GainStamina(2), "Ganaste 2 puntos de estamina.")
    ensures 46 <= roll <= 50 ==> EventFor(roll) == (GainStamina(3), "Ganaste 3 puntos de estamina.")
    ensures 51 <= roll <= 55 ==> EventFor(roll) == (LoseLife, "Perdiste 1 vida.")
    ensures 56 <= roll <= 95 ==> EventFor(roll) == (NoEffect, "No pasa nada.")
    ensures 96 <= roll <= 100 ==> EventFor(roll) == (TempShield, "Obtienes un escudo temporal.")
    ensures roll < 1 || roll > 100 ==> EventFor(roll) == (NoEffect, UnknownMessage)
  {
    if 1 <= roll <= 100 {
      var k := if roll < 6 then 0 else if roll < 36 then 1 else if roll < 46 then 2 else if roll < 51 then 3
               else if roll < 56 then 4 else if roll < 96 then 5 else 6;
      FirstMatchIs(DiceEvents, roll, k);
    }
  }

  /** The combatant attributes the dice can change. */
  datatype Stats = Stats(life: int, stamina: int, turnSkipped: bool, tempShield: bool)

  /** How many of the four attributes differ. */
  function Changed(s: Stats, t: Stats): nat {
    (if s.life != t.life then 1 else 0) + (if s.stamina != t.stamina then 1 else 0)
    + (if s.turnSkipped != t.turnSkipped then 1 else 0) + (if s.tempShield != t.tempShield then 1 else 0)
  }

  /** An effect applied to the attributes. Losing life stops at zero. */
  function Apply(e: DiceEffect, s: Stats): (t: Stats)
    ensures Changed(s, t) <= 1
    ensures e == NoEffect ==> t == s
    ensures e.GainStamina? ==> t.stamina == s.stamina + e.amount
    ensures e == LoseLife ==> t.life >= 0 && (s.life >= 1 ==> t.life == s.life - 1) && (s.life <= 0 ==> t.life == 0)
    ensures e == SkipTurn ==> t.turnSkipped
    ensures e == TempShield ==> t.tempShield
  {
    match e
    case SkipTurn => s.(turnSkipped := true)
    case GainStamina(k) => s.(stamina := s.stamina + k)
    case LoseLife => s.(life := Max(0, s.life - 1))
    case NoEffect => s
    case TempShield => s.(tempShield := true)
  }

  /** process_dice_roll: looks the roll up, applies its effect to the
      combatant and returns its message. */
  method ProcessDiceRoll(roll: int, p: Player) returns (message: string)
    modifies p`life, p`stamina, p`turnSkipped, p`tempShield
    ensures message == EventFor(roll).1
    ensures Stats(p.life, p.stamina, p.turnSkipped, p.tempShield)
         == Apply(EventFor(roll).0, Stats(old(p.life), old(p.stamina), old(p.turnSkipped), old(p.tempShield)))
  {
    var effect;
    effect, message := GetDiceEvent(roll);
    match effect {
      case SkipTurn => p.turnSkipped := true;
      case GainStamina(k) => p.stamina := p.stamina + k;
      case LoseLife => p.life := Max(0, p.life - 1);
      case NoEffect =>
      case TempShield => p.tempShield := true;
    }
  }

  /** A roll outside 1..100 changes nothing. */
  lemma UnknownRollChangesNothing(roll: int, s: Stats)
    requires roll < 1 || roll > 100
    ensures Apply(EventFor(roll).0, s) == s && EventFor(roll).1 == UnknownMessage
  {
    EventTable(roll);
  }
}
