/** Consumable items and the double dispatch that decides their effect:
    the result depends jointly on the kind of item and the kind of
    character. Each item has one entry point per kind of character; an
    entry point an item does not provide reports `false` and changes
    nothing. */
module Consommables {
  import opened Capacites
  import opened Personnages

  /** `ConsommableBase` is an item with only the default entry points. */
  datatype Consommable = ConsommableBase | PotionDeVie | PotionDeMana

  /** Health and mana each potion adds. */
  const Gain: int := 10

  /** `c` is consumed by `p`: returns whether the item had an effect, and
      the character afterwards. A health potion adds 10 health to every
      kind of character; a mana potion adds 10 mana to the two kinds that
      have a mana pool and does nothing to a warrior. */
  function ConsommerPar(c: Consommable, p: Personnage): (r: (bool, Personnage))
    ensures r.0 <==> c.PotionDeVie? || (c.PotionDeMana? && p.PorteMana())
    ensures r.0 <==> r.1 != p
    ensures MemeGenre(p, r.1)
    ensures c.PotionDeVie? ==>
              && r.1.corps.vie == p.corps.vie + 10
              && r.1.corps.etat == p.corps.etat
              && r.1.position == p.position
              && MemesRessources(p, r.1)
    ensures c.PotionDeMana? && p.PorteMana() ==>
              && r.1.mana == p.mana + 10
              && r.1.corps == p.corps
              && r.1.position == p.position
              && (p.PorteArme() ==> r.1.arme == p.arme)
  {
    match (c, p)
    case (PotionDeVie, _) => (true, AvecCorps(p, IncreaseVie(p.corps, Gain)))
    case (PotionDeMana, Magicien(_, _, _)) => (true, IncreaseMana(p, Gain))
    case (PotionDeMana, MagicienGuerrier(_, _, _, _)) => (true, IncreaseMana(p, Gain))
    case _ => (false, p)
  }

  /** `p` is fed `c`; the success flag is discarded. The character changes
      exactly when the pair is a supported one, never changes kind, and
      gains 10 health from a health potion or 10 mana from a mana potion. */
  function Nourrir(p: Personnage, c: Consommable): (r: Personnage)
    ensures r != p <==> c.PotionDeVie? || (c.PotionDeMana? && p.PorteMana())
    ensures MemeGenre(p, r)
    ensures c.PotionDeVie? ==>
              && r.corps.vie == p.corps.vie + 10
              && r.corps.etat == p.corps.etat
              && r.position == p.position
              && MemesRessources(p, r)
    ensures c.PotionDeMana? && p.PorteMana() ==>
              && r.mana == p.mana + 10
              && r.corps == p.corps
              && r.position == p.position
              && (p.PorteArme() ==> r.arme == p.arme)
  {
    ConsommerPar(c, p).1
  }
}
