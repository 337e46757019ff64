/** Items a character uses on a target: the mage's spell and the warrior's
    weapons. Both are stateless; each has a fixed damage amount, and the
    poisoned sword also poisons the target. */
module Equipement {
  import opened Wrappers
  import opened Capacites

  datatype Utilisable = Sort | EpeeEmpoisonee

  /** The items a warrior can hold: every usable item except the spell. */
  type Arme = u: Utilisable | u.EpeeEmpoisonee? witness EpeeEmpoisonee

  /** Damage each item inflicts. */
  function Degats(u: Utilisable): nat {
    match u
    case Sort => 10
    case EpeeEmpoisonee => 100
  }

  /** The status an item inflicts, if any. */
  function EtatInflige(u: Utilisable): Option<Etat> {
    match u
    case Sort => None
    case EpeeEmpoisonee => Some(Empoisonner)
  }

  /** Applies the item to a target: clamped damage, then the item's status
      (the spell keeps the target's status, the sword poisons it). */
  function UtiliserSur(u: Utilisable, cible: Attaquable): (r: Attaquable)
    ensures cible.vie > Degats(u) ==> r.vie == cible.vie - Degats(u)
    ensures cible.vie <= Degats(u) ==> r.vie == 0
    ensures u.Sort? ==> r.etat == cible.etat
    ensures u.EpeeEmpoisonee? ==> r.etat == Empoisonner
  {
    match u
    case Sort => PrendreDommage(cible, 10)
    case EpeeEmpoisonee => ChangerEtat(PrendreDommage(cible, 100), Empoisonner)
  }
}
