/** The shop island of src/islands/island_shop.ts: it buys one kind of good from rockets. */
module IslandShops {
  import opened Rockets
  import opened Islands

  class IslandShop {
    const island: Island
    const good: Good
    /** Whether the shop shows its "Open" animation; it starts "Closed". */
    var isOpen: bool

    constructor (island: Island, good: Good)
      ensures this.island == island && this.good == good
      ensures !isOpen
    {
      this.island := island;
      this.good := good;
      isOpen := false;
    }

    /**
     * interactWithRocket: tries to take exactly the shop's good from the rocket,
     * and opens only when that succeeded.
     */
    method InteractWithRocket(rocket: BaseRocket) returns (taken: bool)
      modifies this`isOpen, rocket`loadedGood
      ensures CargoOutcome(taken, rocket.loadedGood) == TakeGood(old(rocket.loadedGood), good)
      ensures isOpen == (old(isOpen) || taken)
    {
      taken := rocket.TryTakeGood(good);
      if taken {
        isOpen := true;
      }
    }
  }

  /**
   * A rocket carrying a different good, or nothing, leaves the shop as it was;
   * one carrying the shop's good is emptied.
   */
  lemma ShopTakesOnlyItsGood(slot: Good, good: Good)
    ensures slot != good ==> TakeGood(slot, good) == CargoOutcome(false, slot)
    ensures slot == good ==> TakeGood(slot, good) == CargoOutcome(true, NoGood)
  {
  }

  /** Right after a successful sale a second interaction takes nothing. */
  lemma SecondSaleTakesNothing(slot: Good, good: Good)
    requires good != NoGood
    requires TakeGood(slot, good).succeeded
    ensures !TakeGood(TakeGood(slot, good).slot, good).succeeded
  {
    SecondTakeFails(slot, good);
  }
}
