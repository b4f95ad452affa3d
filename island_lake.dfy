/** The lake island of src/islands/island_lake.ts: it fills empty rockets with water. */
module IslandLakes {
  import opened Rockets
  import opened Islands

  class IslandLake {
    const island: Island

    constructor (island: Island)
      ensures this.island == island
    {
      this.island := island;
    }

    /** interactWithRocket: tries to store WATER in the rocket. */
    method InteractWithRocket(rocket: BaseRocket) returns (stored: bool)
      modifies rocket`loadedGood
      ensures CargoOutcome(stored, rocket.loadedGood) == StoreGood(old(rocket.loadedGood), Water)
    {
      stored := rocket.TryStoreGood(Water);
    }
  }

  /** An empty rocket ends up holding water; a loaded one keeps its good. */
  lemma LakeFillsOnlyEmptyRockets(slot: Good)
    ensures slot == NoGood ==> StoreGood(slot, Water) == CargoOutcome(true, Water)
    ensures slot != NoGood ==> StoreGood(slot, Water) == CargoOutcome(false, slot)
  {
  }

  /** Interacting twice leaves the slot as once does, and the second store fails. */
  lemma LakeIdempotent(slot: Good)
    ensures var once := StoreGood(slot, Water);
      StoreGood(once.slot, Water) == CargoOutcome(false, once.slot)
  {
    SecondStoreFails(slot, Water, Water);
  }
}
