/** The program's fixed scenario: a warrior at (10, 10) armed with the
    poisoned sword attacks a mage at (5, 5), then the mage attacks the
    warrior. */
module Scenario {
  import opened Wrappers
  import opened Capacites
  import opened Equipement
  import opened Personnages

  /** The warrior and the mage at the end of the scenario: the sword took
      the mage from 150 to 50 health and poisoned it, the spell took the
      warrior from 500 to 490 and left its status alone, and the cast cost
      the mage 10 of its 50 mana. */
  function Deroulement(): (r: Result<(Personnage, Personnage), Erreur>)
    ensures r.Success?
    ensures r.value.0 == Guerrier(Attaquable(490, NoState), Coordonnee(10, 10), Some(EpeeEmpoisonee))
    ensures r.value.1 == Magicien(Attaquable(50, Empoisonner), Coordonnee(5, 5), 40)
  {
    var guerrier := ChangeArme(NouveauGuerrier(10, 10), Some(EpeeEmpoisonee));
    var magicien := NouveauMagicien(5, 5);
    match Attaquer(guerrier, magicien.corps)
    case Failure(e) => Failure(e)
    case Success(coupEpee) =>
      var (guerrier, magicien) := (coupEpee.0, AvecCorps(magicien, coupEpee.1));
      match Attaquer(magicien, guerrier.corps)
      case Failure(e) => Failure(e)
      case Success(coupSort) => Success((AvecCorps(guerrier, coupSort.1), coupSort.0))
  }
}
