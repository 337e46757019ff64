/** The playable characters. Every character has the shared attackable part
    and a position; a warrior adds a weapon slot, a mage adds a mana pool
    and a fixed spell, and the warrior-mage has both. */
module Personnages {
  import opened Wrappers
  import opened Capacites
  import opened Equipement

  const VieGuerrier: int := 500
  const VieMagicien: int := 150
  const ManaInitial: int := 50
  /** Mana a mage spends on each attack. */
  const CoutSort: int := 10

  /** The weapon slot is empty (`None`) until a weapon is installed. The
      mage's spell is always a `Sort` and is not stored. */
  datatype Personnage =
    | Guerrier(corps: Attaquable, position: Coordonnee, arme: Option<Arme>)
    | Magicien(corps: Attaquable, position: Coordonnee, mana: int)
    | MagicienGuerrier(corps: Attaquable, position: Coordonnee, mana: int, arme: Option<Arme>)
  {
    predicate PorteArme() {
      Guerrier? || MagicienGuerrier?
    }

    predicate PorteMana() {
      Magicien? || MagicienGuerrier?
    }
  }

  /** Attacking with an empty weapon slot. */
  datatype Erreur = ArmeAbsente

  /** `p` and `q` are the same kind of character. */
  predicate MemeGenre(p: Personnage, q: Personnage) {
    && (p.Guerrier? <==> q.Guerrier?)
    && (p.Magicien? <==> q.Magicien?)
    && (p.MagicienGuerrier? <==> q.MagicienGuerrier?)
  }

  /** `q` is the same kind of character as `p`, with the same mana and the
      same weapon where it has them. */
  predicate MemesRessources(p: Personnage, q: Personnage) {
    && MemeGenre(p, q)
    && (p.PorteMana() ==> q.mana == p.mana)
    && (p.PorteArme() ==> q.arme == p.arme)
  }

  /** A new warrior at (x, y): health 500, no status, no weapon yet, so it
      cannot attack until a weapon is installed. */
  function NouveauGuerrier(x: int, y: int): (r: Personnage)
    ensures r.Guerrier?
    ensures r.corps == Attaquable(500, NoState)
    ensures r.position == Coordonnee(x, y)
    ensures r.arme == None
    ensures forall cible :: Attaquer(r, cible) == Failure(ArmeAbsente)
  {
    Guerrier(NouvelAttaquable(VieGuerrier), Coordonnee(x, y), None)
  }

  /** A new mage at (x, y): health 150, no status, mana 50. */
  function NouveauMagicien(x: int, y: int): (r: Personnage)
    ensures r.Magicien?
    ensures r.corps == Attaquable(150, NoState)
    ensures r.position == Coordonnee(x, y)
    ensures r.mana == 50
  {
    Magicien(NouvelAttaquable(VieMagicien), Coordonnee(x, y), ManaInitial)
  }

  /** Replaces the weapon slot's content (the previous weapon is dropped);
      `None` empties the slot. A warrior then attacks with exactly the new
      weapon, or is refused when the slot was emptied. */
  function ChangeArme(p: Personnage, a: Option<Arme>): (r: Personnage)
    requires p.PorteArme()
    ensures MemeGenre(p, r) && r.corps == p.corps && r.position == p.position
    ensures r.arme == a
    ensures p.PorteMana() ==> r.mana == p.mana
    ensures p.Guerrier? && a.Some? ==>
              forall cible :: Attaquer(r, cible) == Success((r, UtiliserSur(a.value, cible)))
    ensures p.Guerrier? && a.None? ==> forall cible :: Attaquer(r, cible) == Failure(ArmeAbsente)
  {
    match p
    case Guerrier(corps, position, _) => Guerrier(corps, position, a)
    case MagicienGuerrier(corps, position, mana, _) => MagicienGuerrier(corps, position, mana, a)
  }

  /** Adds `valeur` to the mana pool, with no bound either way. */
  function IncreaseMana(p: Personnage, valeur: int): (r: Personnage)
    requires p.PorteMana()
    ensures MemeGenre(p, r) && r.corps == p.corps && r.position == p.position
    ensures r.mana - p.mana == valeur
    ensures p.PorteArme() ==> r.arme == p.arme
  {
    match p
    case Magicien(corps, position, mana) => Magicien(corps, position, mana + valeur)
    case MagicienGuerrier(corps, position, mana, arme) => MagicienGuerrier(corps, position, mana + valeur, arme)
  }

  /** `p` with its attackable part replaced by `corps`. */
  function AvecCorps(p: Personnage, corps: Attaquable): (r: Personnage)
    ensures r.corps == corps
    ensures r.position == p.position && MemesRessources(p, r)
  {
    match p
    case Guerrier(_, position, arme) => Guerrier(corps, position, arme)
    case Magicien(_, position, mana) => Magicien(corps, position, mana)
    case MagicienGuerrier(_, position, mana, arme) => MagicienGuerrier(corps, position, mana, arme)
  }

  /** Replaces the position unconditionally. */
  function MoveTo(p: Personnage, position: Coordonnee): (r: Personnage)
    ensures r.position == position
    ensures r.corps == p.corps && MemesRessources(p, r)
  {
    p.(position := position)
  }

  /** `attaquant` attacks the distinct target `cible`. A warrior hands the
      target to its weapon and is itself unchanged; with an empty slot the
      attack is refused. A mage spends 10 mana (nothing stops the pool from
      going negative) and casts its spell on the target. The warrior-mage
      has no attack. */
  function Attaquer(attaquant: Personnage, cible: Attaquable): (r: Result<(Personnage, Attaquable), Erreur>)
    requires !attaquant.MagicienGuerrier?
    ensures r.Failure? <==> attaquant.Guerrier? && attaquant.arme.None?
    ensures r.Failure? ==> r.error == ArmeAbsente
    ensures r.Success? && attaquant.Guerrier? ==>
              r.value == (attaquant, UtiliserSur(attaquant.arme.value, cible))
    ensures r.Success? && attaquant.Magicien? ==>
              && r.value.0.Magicien?
              && r.value.0.mana == attaquant.mana - 10
              && r.value.0.corps == attaquant.corps
              && r.value.0.position == attaquant.position
              && r.value.1 == UtiliserSur(Sort, cible)
  {
    match attaquant
    case Guerrier(_, _, arme) =>
      (match arme
       case None => Failure(ArmeAbsente)
       case Some(a) => Success((attaquant, UtiliserSur(a, cible))))
    case Magicien(corps, position, mana) =>
      Success((Magicien(corps, position, mana - CoutSort), UtiliserSur(Sort, cible)))
  }
}
