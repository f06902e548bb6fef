/**
  Memory-mapped input and output through a window of the address translation unit
  (module/atu_mmio/src/mod_atu_mmio.c): one translation region maps an aligned block of physical memory into the window
  and is kept until an access misses it.
*/
module AtuMmio {
  import opened FwkStatus
  import opened FwkEvent
  import opened Atu
  import opened Arithmetic

  const ROOT_PAS: Attributes := [2, 2, 2, 2, 2, 2, 2, 3]

  /** `is_addr_mapped`, in 64-bit arithmetic. */
  predicate IsAddrMapped(mapped: nat, mapSize: nat, address: nat, size: nat) {
    mapped <= address && (address + size) % TWO64 < (mapped + mapSize) % TWO64
  }

  /** The access lies in the block that starts at `base`. */
  predicate InBlock(base: nat, mapSize: nat, address: nat, size: nat) {
    base <= address && address + size <= base + mapSize
  }

  /** A naturally aligned access of 1, 2, 4 or 8 bytes below 2^64. */
  predicate Access(address: nat, size: nat) {
    size in {1, 2, 4, 8} && address % size == 0 && address + size <= TWO64
  }

  function Base(address: nat, mapSize: nat): nat
    requires mapSize > 0
  {
    address - address % mapSize
  }

  lemma Multiple(mapSize: nat, size: nat) returns (m: nat)
    requires mapSize % 8 == 0 && size in {1, 2, 4, 8}
    ensures mapSize == size * m
  {
    var e := mapSize / 8;
    m := if size == 1 then 8 * e else if size == 2 then 4 * e else if size == 4 then 2 * e else e;
  }

  /** The offset in the block of a multiple of `size` is a multiple of `size`. */
  lemma OffsetMultiple(size: nat, m: nat, a: nat, q: nat) returns (k: int)
    ensures size * a - (size * m) * q == size * k
  {
    k := a - m * q;
    assert (size * m) * q == size * (m * q);
  }

  /** A naturally aligned access lies in the aligned block around its address. */
  lemma AccessInBlock(address: nat, size: nat, mapSize: nat)
    requires Access(address, size) && mapSize > 0 && mapSize % 8 == 0
    ensures Base(address, mapSize) % mapSize == 0 && InBlock(Base(address, mapSize), mapSize, address, size)
  {
    var q, r := address / mapSize, address % mapSize;
    assert address == mapSize * q + r;
    DivideUnique(Base(address, mapSize), mapSize, q, 0);
    var m := Multiple(mapSize, size);
    var k := OffsetMultiple(size, m, address / size, q);
    RoomForOne(size, m, k);
  }

  /** A multiple of the block size is page-aligned when the block size is. */
  lemma BaseAligned(base: nat, mapSize: nat, page: nat)
    requires page > 0 && mapSize > 0 && mapSize % page == 0 && base % mapSize == 0
    ensures base % page == 0
  {
    var q, m := base / mapSize, mapSize / page;
    assert base == mapSize * q && mapSize == page * m;
    assert base == page * (m * q);
    DivideUnique(base, page, m * q, 0);
  }

  /** The block seems to hold the access and more: `address` is not below it and the end, wrapping, is below its end. */
  predicate Claims(mapped: nat, mapSize: nat, address: nat, size: nat) {
    var end, limit := address + size, mapped + mapSize;
    && mapped <= address
    && (if end == TWO64 then 0 else end) < (if limit == TWO64 then 0 else limit)
  }

  lemma ClaimedExactly(mapped: nat, mapSize: nat, address: nat, size: nat)
    requires Access(address, size) && mapped + mapSize <= TWO64
    ensures IsAddrMapped(mapped, mapSize, address, size) <==> Claims(mapped, mapSize, address, size)
  {
  }

  /** The mapped block is said to hold an access that it does not hold. */
  predicate FalseHit(mapped: nat, mapSize: nat, address: nat, size: nat) {
    IsAddrMapped(mapped, mapSize, address, size) && !(mapped != 0 && InBlock(mapped, mapSize, address, size))
  }

  /**
    When that happens: before anything is mapped, for the addresses that block 0 would hold except at its end; and for
    the last bytes of the 64-bit address space, whose end address wraps around.
  */
  lemma FalseHitWhen(mapped: nat, mapSize: nat, address: nat, size: nat)
    requires Access(address, size) && 0 < mapSize < TWO32 && mapSize % 8 == 0 && mapped + mapSize <= TWO64
    ensures FalseHit(mapped, mapSize, address, size) <==>
      || (mapped == 0 && address + size < mapSize)
      || (address + size == TWO64 && mapped + mapSize < TWO64)
  {
    ClaimedExactly(mapped, mapSize, address, size);
    hide IsAddrMapped;
  }

  class MmioCtx {
    const atu: AtuDevice
    const window: nat
    const mapSize: nat
    /** The identifier of this module, and all valid identifiers. */
    const self: Entity
    const entities: set<Entity>
    /** `current_mapped_phys_address` and `mapped_index`. */
    var mapped: nat
    var index: nat

    constructor (atu: AtuDevice, window: nat, mapSize: nat, self: Entity, entities: set<Entity>)
      ensures this.atu == atu && this.window == window && this.mapSize == mapSize && this.self == self
      ensures this.entities == entities && mapped == 0
    {
      this.atu, this.window, this.mapSize, this.self, this.entities := atu, window, mapSize, self, entities;
      mapped, index := 0, 0;
    }

    function WindowRegion(base: nat): Region {
      Region(self, window, base, mapSize, ROOT_PAS)
    }

    /** The window and the block size suit the translation unit. */
    ghost predicate Configured() {
      && self in entities && NoEntity !in entities
      && 0 < mapSize < TWO32 && mapSize % 8 == 0 && mapSize % atu.Page() == 0
      && window < TWO32 && window + mapSize <= TWO32 && window % atu.Page() == 0 && TWO64 % mapSize == 0
    }

    /** The active regions of others leave the start of the window free. */
    ghost predicate WindowFree()
      requires atu.Valid()
      reads atu
    {
      forall j {:trigger atu.regions[j]} :: 0 <= j < atu.max && atu.atuc[j] && atu.regions[j].owner != self ==>
        !(atu.regions[j].size != 0 && atu.regions[j].log <= window <= atu.regions[j].End())
    }

    /** The only region of this module maps the block at `mapped` into the window. */
    ghost predicate Installed()
      requires atu.Valid()
      reads this, atu
    {
      && index < atu.max && atu.atuc[index] && atu.regions[index] == WindowRegion(mapped)
      && (forall j {:trigger atu.regions[j]} :: 0 <= j < atu.max && atu.atuc[j] && j != index ==>
            atu.regions[j].owner != self)
    }

    /** This module has no region, and there is room for one. */
    ghost predicate Absent()
      requires atu.Valid()
      reads this, atu
    {
      && (forall j {:trigger atu.regions[j]} :: 0 <= j < atu.max && atu.atuc[j] ==> atu.regions[j].owner != self)
      && exists j :: 0 <= j < atu.max && !atu.atuc[j]
    }

    /** The translation unit holds what the cached block says; 0 stands for no block. */
    ghost predicate Good()
      reads this, atu
    {
      && atu.Valid() && Configured() && WindowFree()
      && (if mapped == 0 then Absent() else Installed())
      && mapped % mapSize == 0 && mapped + mapSize <= TWO64
    }

    /** An access at `logical` lies in the window, where a region of this module translates it to `address`. */
    ghost predicate Reached(logical: nat, address: nat, size: nat)
      requires atu.Valid()
      reads this, atu
    {
      && window <= logical && logical + size <= window + mapSize
      && exists j :: 0 <= j < atu.max && atu.atuc[j] && atu.regions[j].owner == self &&
                     atu.Translate(j, logical) == Some(address)
    }

    /** The region of the current block is removed, if there is one. */
    method Unmap()
      requires Good()
      modifies atu
      ensures atu.Valid() && WindowFree() && Absent()
    {
      if mapped != 0 {
        var status := atu.RemoveRegion(index, self, entities);
        assert status == SUCCESS && !atu.atuc[index];
      }
    }

    /** The block at `base` is mapped into the window. */
    method Map(base: nat)
      requires atu.Valid() && Configured() && WindowFree() && base % mapSize == 0 && base + mapSize <= TWO64
      requires Absent()
      modifies atu, this
      ensures atu.Valid() && WindowFree() && mapped == base && Installed()
    {
      var r := WindowRegion(base);
      BaseAligned(base, mapSize, atu.Page());
      assert atu.Acceptable(r);
      var status, idx := atu.AddRegion(r);
      assert status == SUCCESS;
      index, mapped := idx, base;
    }

    /** With a block installed, the address computed from it reaches exactly the accesses inside the block. */
    lemma InstalledReaches(logical: nat, address: nat, size: nat)
      requires atu.Valid() && Configured() && Installed() && mapped + mapSize <= TWO64 && mapped <= address && size > 0
      requires logical == (window + (address - mapped)) % TWO32
      ensures Reached(logical, address, size) <==> InBlock(mapped, mapSize, address, size)
    {
      if InBlock(mapped, mapSize, address, size) {
        assert logical == window + (address - mapped);
      }
      if window <= logical && logical + size <= window + mapSize {
        atu.Translates(index, logical);
      }
    }

    /**
      `map_region`: the returned address reaches the requested one exactly when the cached block did not claim it
      falsely; the module stays able to serve any access unless a miss asked for block 0, which it takes for no block.
    */
    method MapRegion(address: nat, size: nat) returns (logical: nat)
      requires Good() && Access(address, size)
      modifies atu, this
      ensures atu.Valid()
      ensures Reached(logical, address, size) <==> !FalseHit(old(mapped), mapSize, address, size)
      ensures Good() <==> IsAddrMapped(old(mapped), mapSize, address, size) || address >= mapSize
      ensures if Claims(old(mapped), mapSize, address, size) then
          mapped == old(mapped) && index == old(index) && atu.atuc == old(atu.atuc) && atu.regions == old(atu.regions)
        else
          mapped == address - address % mapSize
    {
      ClaimedExactly(mapped, mapSize, address, size);
      hide IsAddrMapped, Claims;
      if !IsAddrMapped(mapped, mapSize, address, size) {
        Unmap();
        AccessInBlock(address, size, mapSize);
        BaseBelow(address, mapSize);
        Map(Base(address, mapSize));
        assert !Absent();
      }
      logical := (window + (address - mapped)) % TWO32;
      if Installed() {
        InstalledReaches(logical, address, size);
      }
    }
  }

  /** The block of an address is block 0 exactly for the addresses below the block size, and ends within 64 bits. */
  lemma BaseBelow(address: nat, mapSize: nat)
    requires mapSize > 0 && TWO64 % mapSize == 0 && address < TWO64
    ensures Base(address, mapSize) == 0 <==> address < mapSize
    ensures Base(address, mapSize) + mapSize <= TWO64
  {
    var q, m := address / mapSize, TWO64 / mapSize;
    assert address == mapSize * q + address % mapSize && TWO64 == mapSize * m;
    assert mapSize * q < mapSize * m;
    RoomForOne(mapSize, m, q);
    assert address >= mapSize ==> q >= 1;
    assert q >= 1 ==> mapSize * q >= mapSize;
    DivideUnique(address, mapSize, q, address % mapSize);
  }
}
