/** The player's unlocked items (Assets/Scripts/Progress.cs). */
module Progress {

  /** The unlockable items, in declaration order. */
  datatype Unlockable =
    SmallLoan | MediumLoan | BigLoan | Bus | Tram | Subway | Intercity | Ferry

  /** The position of the `_Last` marker: the number of real items. */
  const Last: nat := 8

  /** The enum's integer value of an item. */
  function Ordinal(u: Unlockable): (i: nat)
    ensures i < Last
  {
    match u
    case SmallLoan => 0
    case MediumLoan => 1
    case BigLoan => 2
    case Bus => 3
    case Tram => 4
    case Subway => 5
    case Intercity => 6
    case Ferry => 7
  }

  /** The cast `(Unlockable) i` for a value below `_Last`. */
  function FromOrdinal(i: nat): (u: Unlockable)
    requires i < Last
    ensures Ordinal(u) == i
  {
    if i == 0 then SmallLoan
    else if i == 1 then MediumLoan
    else if i == 2 then BigLoan
    else if i == 3 then Bus
    else if i == 4 then Tram
    else if i == 5 then Subway
    else if i == 6 then Intercity
    else Ferry
  }

  /** Every item is reached by the cast of its own ordinal. */
  lemma FromOrdinalOfOrdinal(u: Unlockable)
    ensures FromOrdinal(Ordinal(u)) == u
  {
  }

  class Progress {
    var unlocked: set<Unlockable>

    /** A new progress has nothing unlocked. */
    constructor ()
      ensures unlocked == {}
    {
      unlocked := {};
    }

    /** Unlocks every item below `_Last`, one ordinal at a time. */
    method UnlockAll()
      modifies this
      ensures forall u: Unlockable :: u in unlocked
    {
      var i := 0;
      while i < Last
        invariant 0 <= i <= Last
        invariant forall u: Unlockable :: Ordinal(u) < i ==> u in unlocked
      {
        unlocked := unlocked + {FromOrdinal(i)};
        i := i + 1;
      }
    }

    /** `HashSet.Add`: true exactly when the item was not yet unlocked. */
    method Unlock(item: Unlockable) returns (added: bool)
      modifies this
      ensures added <==> item !in old(unlocked)
      ensures unlocked == old(unlocked) + {item}
    {
      added := item !in unlocked;
      unlocked := unlocked + {item};
    }

    predicate IsUnlocked(item: Unlockable)
      reads this
    {
      item in unlocked
    }
  }
}
