/** The capabilities every character shares: a status, a position and the
    `Attaquable` part (health and status) that damage, healing and status
    changes act on. */
module Capacites {

  /** A character carries at most one status; the last one set wins. */
  datatype Etat = NoState | Empoisonner

  datatype Coordonnee = Coordonnee(x: int, y: int)

  /** The part of a character that can be attacked. Health has no upper
      bound; damage clamps it at 0 from below. */
  datatype Attaquable = Attaquable(vie: int, etat: Etat)

  /** A freshly built attackable part: the given health and no status. */
  function NouvelAttaquable(vie: int): Attaquable
  {
    Attaquable(vie, NoState)
  }

  /** Subtracts `valeur` from the health and clamps the result at 0. */
  function PrendreDommage(a: Attaquable, valeur: int): (r: Attaquable)
    ensures r.vie >= 0
    ensures r.vie == 0 <==> a.vie <= valeur
    ensures a.vie > valeur ==> r.vie == a.vie - valeur
    ensures r.etat == a.etat
  {
    var vie := a.vie - valeur;
    a.(vie := if vie < 0 then 0 else vie)
  }

  /** Adds `valeur` to the health with no upper bound. From a non-negative
      health, damage of the same value undoes it. */
  function IncreaseVie(a: Attaquable, valeur: int): (r: Attaquable)
    ensures r.vie - a.vie == valeur
    ensures r.etat == a.etat
    ensures a.vie >= 0 ==> PrendreDommage(r, valeur) == a
  {
    a.(vie := a.vie + valeur)
  }

  /** Sets the status; health is untouched. */
  function ChangerEtat(a: Attaquable, etat: Etat): (r: Attaquable)
    ensures r.etat == etat
    ensures r.vie == a.vie
  {
    a.(etat := etat)
  }

  /** Of two successive status settings only the second one is visible;
      with `premier == second` this says setting a status twice is the same
      as setting it once. */
  lemma ChangerEtatDerniereEcriture(a: Attaquable, premier: Etat, second: Etat)
    ensures ChangerEtat(ChangerEtat(a, premier), second) == ChangerEtat(a, second)
  {
  }
}
