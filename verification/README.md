# Game characters: attack, equipment and consumable dispatch

This project models a small C++ simulation of game characters (`main.cpp`)
as immutable Dafny datatypes and pure functions, and proves properties of
that model.

Every character (`Personnage`) has an attackable part (`Attaquable`: health
`vie` and status `Etat`) and a position (`Coordonnee`). Characters come in
three kinds:

- a warrior (`Guerrier`) with a weapon slot that starts empty;
- a mage (`Magicien`) with a mana pool and a fixed spell (`Sort`);
- a warrior-mage (`MagicienGuerrier`) with both.

Damage clamps health at 0. Healing has no upper bound. Setting a status and
moving both replace the old value. The spell deals 10 damage. The poisoned
sword (`EpeeEmpoisonee`) deals 100 and poisons the target.

A warrior attacks with its weapon. A mage spends 10 mana and casts its spell.
Consumables (`Consommable`) are resolved by double dispatch on the pair
(item, character kind):

- the health potion adds 10 health to every kind;
- the mana potion adds 10 mana to the two kinds that have mana;
- any other pair reports `false` and changes nothing.

Modules:

- `Wrappers`: `Option` (the weapon slot) and `Result` (a refused attack).
- `Capacites`: status, coordinates, the attackable part and its three operations.
- `Equipement`: the spell and the sword, and their effect on a target.
- `Personnages`: the character kinds, their constructors, weapon change,
  mana increase, movement and attack.
- `Consommables`: the potions and their double dispatch.
- `Scenario`: the program's fixed `main` scenario.
- `Traces`: invariants over any sequence of operations on one character,
  and repeated casting.

The module order follows the source file's top-down structure.

## Model

| member | source | states |
|---|---|---|
| Capacites.PrendreDommage | main.cpp:51-55 | Health never goes below 0. It is exactly 0 when the damage is at least the old health. Otherwise it drops by exactly the damage. Status is kept. |
| Capacites.IncreaseVie | main.cpp:57-59 | Health rises by exactly the given value, with no upper clamp. Status is kept. From a non-negative health, taking the same value as damage restores the original. |
| Capacites.ChangerEtat | main.cpp:61-63 | The status becomes the given one. Health is kept. |
| Capacites.ChangerEtatDerniereEcriture | main.cpp:61-63 | Of two successive status changes only the second is visible. With both equal, setting a status twice (for example poisoned twice) is the same as setting it once. |
| Equipement.UtiliserSur | main.cpp:106-130 | The target loses the item's damage (10 for the spell, 100 for the sword), clamped at 0. The spell keeps the target's status. The sword sets it to poisoned. |
| Personnages.NouveauGuerrier | main.cpp:176-185 | A new warrior has health 500, no status, the given position and an empty weapon slot. Every attack it tries is refused with `ArmeAbsente` until a weapon is installed. |
| Personnages.NouveauMagicien | main.cpp:195-197 | A new mage has health 150, no status, the given position and mana 50 (main.cpp:156). |
| Personnages.ChangeArme | main.cpp:137-139 | The slot holds exactly what was passed, a weapon or nothing (the empty pointer). Health, status, position, kind and mana are kept. A warrior then attacks every target exactly as the new weapon's effect dictates, or has every attack refused when the slot was emptied. |
| Personnages.IncreaseMana | main.cpp:149-151 | Mana rises by exactly the amount. Health, status, position, kind and weapon are kept. |
| Personnages.MoveTo | main.cpp:83-85 | The position becomes the given one. The attackable part, kind, mana and weapon are kept. |
| Personnages.Attaquer | main.cpp:183-206 | An attack is refused exactly when a warrior's slot is empty. An armed warrior is unchanged and the target receives the weapon's effect. A mage's mana drops by exactly 10 with no floor, its health, status and position are kept, and the target receives the spell's effect. |
| Consommables.ConsommerPar | main.cpp:222-243 | The result is true exactly for a health potion on any kind, or a mana potion on a kind with mana. It is true exactly when the character changed. The health potion adds 10 health and keeps everything else. The mana potion adds 10 mana and keeps everything else. The kind never changes. |
| Consommables.Nourrir | main.cpp:179-181 | Feeding changes the character exactly for the supported pairs: a health potion on any kind, or a mana potion on a mage or warrior-mage. A mana potion leaves a warrior unchanged. The kind never changes. A health potion adds exactly 10 health and keeps status, position, mana and weapon. A mana potion on a kind with mana adds exactly 10 mana and keeps health, status, position and weapon. The same body appears at main.cpp:199-201 and main.cpp:217-219. |
| Scenario.Deroulement | main.cpp:245-263 | After the sword attacks the mage and the spell attacks the warrior, the warrior has health 490, no status, position (10, 10) and the sword. The mage has health 50, is poisoned, is at (5, 5) and has mana 40. |
| Traces.Appliquer | main.cpp:51-85 | One operation keeps the character's kind and weapon. Mana rises only with a mana potion. Health stays non-negative unless the heal is negative. Position and status become the value the operation writes, if any. |
| Traces.Executer | main.cpp:51-59 | Along any sequence of operations the character's kind and weapon are kept. Mana rises by 10 per mana potion and by nothing else. Health stays non-negative when it starts non-negative and no heal is negative. |
| Traces.PositionDerniereEcriture | main.cpp:83-85 | After any sequence of operations the position is the last move's target, or the starting position if nothing moved the character. |
| Traces.EtatDerniereEcriture | main.cpp:61-63 | After any sequence of operations the status is the last one written, either by a status change or by a poisoned-sword hit. With no such write it is the starting status. |
| Traces.SortsRepetes | main.cpp:203-206 | After n casts the mage's mana has dropped by exactly 10n, with no floor. Its health, status and position are kept. The target keeps its status, and its health is its old health minus 10n, clamped at 0. |
| Traces.ManaNegatifApresCinqSorts | main.cpp:203-206 | For a new mage at any position casting on any target, mana is negative after n casts exactly when n is greater than 5, because nothing checks the pool. |

## Left out

- Text output: every `ecrireDetails` and all stream writes. This is I/O.
- Object mechanics: `unique_ptr` ownership, virtual destructors and the
  multiple-inheritance layout. The weapon slot is an `Option`. Installing a
  weapon replaces the old one, and passing the empty pointer (`None`) empties
  the slot.
- Null-weapon attack: a warrior attacking with an empty slot dereferences a
  null pointer in the source, which is undefined behaviour. The model refuses
  the attack with the error `ArmeAbsente` instead. Describing such a warrior
  would also dereference null; that is output and is not modelled.
- Warrior-mage construction and attack: the warrior-mage declares no
  constructor and no `attaquer`, so the source cannot build it. `Attaquer`
  therefore requires a warrior or a mage. The warrior-mage is a variant only
  for potion dispatch. Its `nourrir` is private in the source. The
  dispatch entry point for it is public, and the model uses that.
- Self-attack: an attack where attacker and target are the same object is
  not modelled. Attacker and target are separate values.
- The `CONSOMMER_PAR` macro: only the per-kind behaviour it expands to is
  modelled.
- Integer width: health, mana and coordinates are C++ `int`. The model uses
  unbounded integers, so the undefined behaviour of signed overflow is not
  represented.
- Traces: these sequences cover only the operations that act on a single
  character. Attacks with this character as the attacker appear only as
  repeated casting (`Traces.SortsRepetes`). Weapon changes are not part of a
  sequence.
