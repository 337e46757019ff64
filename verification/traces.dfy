/** Sequences of operations applied to one character, and the invariants
    that hold along any such sequence: health stays non-negative while
    heals are non-negative, the kind of character and its weapon never
    change, mana moves only with mana potions, and position and status are
    each decided by the last operation that writes them. Also the effect of
    a mage casting repeatedly on one target. */
module Traces {
  import opened Wrappers
  import opened Capacites
  import opened Equipement
  import opened Personnages
  import opened Consommables

  /** One operation on a character, as a target or on its own. */
  datatype Action =
    | Dommage(valeur: int)
    | Soin(valeur: int)
    | Statut(etat: Etat)
    | Deplacement(vers: Coordonnee)
    | Frappe(par: Utilisable)
    | Nourri(avec: Consommable)

  /** Heals, if any, are by a non-negative amount. */
  predicate SoinPositif(a: Action) {
    a.Soin? ==> a.valeur >= 0
  }

  /** The position an action writes, if any. */
  function PositionEcrite(a: Action): Option<Coordonnee> {
    match a
    case Deplacement(vers) => Some(vers)
    case _ => None
  }

  /** The status an action writes, if any. */
  function EtatEcrit(a: Action): Option<Etat> {
    match a
    case Statut(etat) => Some(etat)
    case Frappe(u) => EtatInflige(u)
    case _ => None
  }

  /** Mana an action adds to a character that has a mana pool. */
  function ManaAjoute(a: Action): int {
    if a == Nourri(PotionDeMana) then Gain else 0
  }

  /** Applies one action to `p`. */
  function Appliquer(p: Personnage, a: Action): (r: Personnage)
    ensures MemeGenre(p, r)
    ensures p.PorteArme() ==> r.arme == p.arme
    ensures p.PorteMana() ==> r.mana == p.mana + ManaAjoute(a)
    ensures p.corps.vie >= 0 && SoinPositif(a) ==> r.corps.vie >= 0
    ensures r.position == PositionEcrite(a).GetOr(p.position)
    ensures r.corps.etat == EtatEcrit(a).GetOr(p.corps.etat)
  {
    match a
    case Dommage(valeur) => AvecCorps(p, PrendreDommage(p.corps, valeur))
    case Soin(valeur) => AvecCorps(p, IncreaseVie(p.corps, valeur))
    case Statut(etat) => AvecCorps(p, ChangerEtat(p.corps, etat))
    case Deplacement(vers) => MoveTo(p, vers)
    case Frappe(u) => AvecCorps(p, UtiliserSur(u, p.corps))
    case Nourri(c) => Nourrir(p, c)
  }

  /** Number of mana potions in `actions`. */
  function PotionsDeMana(actions: seq<Action>): nat {
    if |actions| == 0 then 0
    else (if actions[0] == Nourri(PotionDeMana) then 1 else 0) + PotionsDeMana(actions[1..])
  }

  /** Applies `actions` to `p` from first to last. Along the way the kind
      of character and its weapon are kept, mana grows by 10 per mana
      potion and by nothing else, and health stays non-negative as long as
      no heal is negative. */
  function Executer(p: Personnage, actions: seq<Action>): (r: Personnage)
    ensures MemeGenre(p, r)
    ensures p.PorteArme() ==> r.arme == p.arme
    ensures p.PorteMana() ==> r.mana == p.mana + 10 * PotionsDeMana(actions)
    ensures p.corps.vie >= 0 && (forall i :: 0 <= i < |actions| ==> SoinPositif(actions[i])) ==>
              r.corps.vie >= 0
    decreases |actions|
  {
    if |actions| == 0 then p
    else Executer(Appliquer(p, actions[0]), actions[1..])
  }

  /** The value after a series of writes: the last write, or `initial`
      when nothing was written. Read from the end of the series. */
  function DerniereEcriture<T>(initial: T, ecritures: seq<Option<T>>): (r: T)
    ensures r == initial || exists i :: 0 <= i < |ecritures| && ecritures[i] == Some(r)
    decreases |ecritures|
  {
    if |ecritures| == 0 then initial
    else match ecritures[|ecritures| - 1]
      case Some(v) => v
      case None => DerniereEcriture(initial, ecritures[..|ecritures| - 1])
  }

  /** Performing a first write and then a series is the same as the whole
      series read from the end. */
  lemma {:induction false} DerniereEcritureTete<T>(initial: T, premiere: Option<T>, suite: seq<Option<T>>)
    ensures DerniereEcriture(initial, [premiere] + suite) == DerniereEcriture(premiere.GetOr(initial), suite)
    decreases |suite|
  {
    var tout := [premiere] + suite;
    if |suite| > 0 {
      assert tout[|tout| - 1] == suite[|suite| - 1];
      assert tout[..|tout| - 1] == [premiere] + suite[..|suite| - 1];
      DerniereEcritureTete(initial, premiere, suite[..|suite| - 1]);
    }
  }

  function Positions(actions: seq<Action>): seq<Option<Coordonnee>> {
    seq(|actions|, i requires 0 <= i < |actions| => PositionEcrite(actions[i]))
  }

  function Etats(actions: seq<Action>): seq<Option<Etat>> {
    seq(|actions|, i requires 0 <= i < |actions| => EtatEcrit(actions[i]))
  }

  /** Position is last-write-wins: after `actions`, it is the target of the
      last move, or the starting position if there was none. */
  lemma {:induction false} PositionDerniereEcriture(p: Personnage, actions: seq<Action>)
    ensures Executer(p, actions).position == DerniereEcriture(p.position, Positions(actions))
    decreases |actions|
  {
    if |actions| > 0 {
      var suivant := Appliquer(p, actions[0]);
      PositionDerniereEcriture(suivant, actions[1..]);
      assert Positions(actions) == [PositionEcrite(actions[0])] + Positions(actions[1..]);
      DerniereEcritureTete(p.position, PositionEcrite(actions[0]), Positions(actions[1..]));
    }
  }

  /** Status is last-write-wins: after `actions`, it is the one set by the
      last status change or poisoned-sword hit, or the starting status if
      there was none. Setting the same status again is therefore harmless. */
  lemma {:induction false} EtatDerniereEcriture(p: Personnage, actions: seq<Action>)
    ensures Executer(p, actions).corps.etat == DerniereEcriture(p.corps.etat, Etats(actions))
    decreases |actions|
  {
    if |actions| > 0 {
      var suivant := Appliquer(p, actions[0]);
      EtatDerniereEcriture(suivant, actions[1..]);
      assert Etats(actions) == [EtatEcrit(actions[0])] + Etats(actions[1..]);
      DerniereEcritureTete(p.corps.etat, EtatEcrit(actions[0]), Etats(actions[1..]));
    }
  }

  /** A mage casts its spell `n` times on one target. The mage loses
      exactly 10 mana per cast with no floor, and the target loses 10
      health per cast, clamped at 0, keeping its status. */
  function SortsRepetes(mage: Personnage, cible: Attaquable, n: nat): (r: (Personnage, Attaquable))
    requires mage.Magicien?
    ensures r.0.Magicien?
    ensures r.0.mana == mage.mana - 10 * n
    ensures r.0.corps == mage.corps && r.0.position == mage.position
    ensures r.1.etat == cible.etat
    ensures n > 0 || cible.vie >= 0 ==>
              r.1.vie == if cible.vie > 10 * n then cible.vie - 10 * n else 0
    decreases n
  {
    if n == 0 then (mage, cible)
    else
      var coup := Attaquer(mage, cible).value;
      SortsRepetes(coup.0, coup.1, n - 1)
  }

  /** Nothing stops the pool from going negative: wherever a new mage
      stands and whatever it targets, its mana is negative after `n` casts
      exactly when `n` exceeds 5. */
  lemma ManaNegatifApresCinqSorts(x: int, y: int, cible: Attaquable, n: nat)
    ensures SortsRepetes(NouveauMagicien(x, y), cible, n).0.mana < 0 <==> n > 5
  {
  }
}
