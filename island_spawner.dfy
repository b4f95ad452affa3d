/** The spawner island of src/islands/island_spawner.ts: discovered once, for good. */
module SpawnerIslands {
  import opened Islands

  class SpawnerIsland {
    const island: Island
    /** The source leaves the field unset, which reads as false, until discovery. */
    var isDiscovered: bool

    constructor (island: Island, isDiscovered: bool)
      ensures this.island == island
      ensures this.isDiscovered == isDiscovered
    {
      this.island := island;
      this.isDiscovered := false;
      new;
      if isDiscovered {
        var _ := DiscoverIsland();
      }
    }

    /** discoverIsland: a no-op on a discovered island; otherwise marks it discovered. */
    method DiscoverIsland() returns (changed: bool)
      modifies this`isDiscovered
      ensures isDiscovered
      ensures changed == !old(isDiscovered)
    {
      if isDiscovered {
        return false;
      }
      isDiscovered := true;
      return true;
    }
  }
}
