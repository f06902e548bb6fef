/**
  The address translation unit (module/atu/src/atu_manage.c, module/atu/src/atu_manage_utils.c): up to 32 translation
  regions, each with a bit in the configuration register ATUC, an entry in the region table and an owner. Addresses on
  the logical side and sizes are 32 bits wide, on the physical side 64 bits.
*/
module Atu {
  import opened FwkStatus
  import opened FwkEvent
  import opened Arithmetic

  /** Output bus attributes: eight two-bit fields, the last of which is AxNSE. */
  type Attributes = a: seq<nat> | |a| == 8 && forall i :: 0 <= i < 8 ==> a[i] < 4
    witness [2, 2, 2, 2, 2, 2, 2, 2]

  const PASSTHROUGH: nat := 0
  const RESERVED: nat := 1
  const AXNSE: nat := 7

  datatype Region = Region(owner: Entity, log: nat, phy: nat, size: nat, attributes: Attributes) {
    /** The last logical address, in 32-bit arithmetic. */
    function End(): nat {
      (log + size + TWO32 - 1) % TWO32
    }

    /** The fields fit their C types. */
    predicate Fits() {
      log < TWO32 && phy < TWO64 && size < TWO32
    }
  }

  const CLEARED: Region := Region(NoEntity, 0, 0, 0, [0, 0, 0, 0, 0, 0, 0, 0])

  function Pow2(k: nat): (r: nat)
    ensures r > 0
  {
    if k == 0 then 1 else 2 * Pow2(k - 1)
  }

  predicate Aligned(r: Region, page: nat)
    requires page > 0
  {
    r.phy % page == 0 && r.log % page == 0 && r.size % page == 0
  }

  /** The value added to the logical page number, modulo 2^64. */
  function AddValue(r: Region, page: nat): nat
    requires page > 0
  {
    (r.phy / page - r.log / page) % TWO64
  }

  /** The number of set bits below position `n`. */
  function Count(bits: seq<bool>, n: nat): (c: nat)
    requires n <= |bits|
    ensures c <= n
  {
    if n == 0 then 0 else Count(bits, n - 1) + if bits[n - 1] then 1 else 0
  }

  lemma {:induction false} CountGrows(bits: seq<bool>, j: nat, k: nat, n: nat)
    requires j <= k < n <= |bits| && bits[k]
    ensures Count(bits, j) < Count(bits, n)
    decreases n
  {
    CountMonotone(bits, j, k);
    CountMonotone(bits, k + 1, n);
  }

  lemma {:induction false} CountMonotone(bits: seq<bool>, j: nat, n: nat)
    requires j <= n <= |bits|
    ensures Count(bits, j) <= Count(bits, n)
    decreases n
  {
    if j == n {
    } else {
      CountMonotone(bits, j, n - 1);
    }
  }

  lemma {:induction false} CountUpdate(bits: seq<bool>, k: nat, b: bool, n: nat)
    requires k < |bits| && n <= |bits| && bits[k] != b
    ensures Count(bits[k := b], n) == Count(bits, n) + if k >= n then 0 else if b then 1 else -1
  {
    if n == 0 {
    } else {
      CountUpdate(bits, k, b, n - 1);
    }
  }

  /** A requested region starts inside an active one. */
  predicate StartsIn(r: Region, active: Region) {
    active.size != 0 && active.log <= r.log <= active.End()
  }

  lemma EndIs(r: Region)
    requires r.Fits()
    ensures r.size > 0 ==>
      r.End() == if r.log + r.size <= TWO32 then r.log + r.size - 1 else r.log + r.size - 1 - TWO32
    ensures r.size == 0 ==> r.End() == if r.log == 0 then TWO32 - 1 else r.log - 1
  {
  }

  /** The start of `r` lies in an active region that is not empty, whose last address is 32 bits wide. */
  predicate BeginsIn(r: Region, active: Region) {
    var last := active.log + active.size - 1;
    active.size > 0 && active.log <= r.log <= if last < TWO32 then last else last - TWO32
  }

  /** Two regions share a logical address. */
  ghost predicate Overlap(r: Region, s: Region) {
    exists a :: Covers(r, a) && Covers(s, a)
  }

  predicate Covers(r: Region, a: nat) {
    r.log <= a < r.log + r.size
  }

  /** A region starts below an active one and reaches into it. */
  predicate ReachesInto(r: Region, active: Region) {
    r.size > 0 && active.size > 0 && r.log < active.log <= r.End()
  }

  /**
    Validation looks only for a start inside an active region: the overlaps that it misses are exactly those of a region
    that starts below an active one and reaches into it.
  */
  lemma OverlapMissed(r: Region, active: Region)
    requires r.log + r.size <= TWO32 && active.log + active.size <= TWO32
    ensures Overlap(r, active) && !StartsIn(r, active) <==> ReachesInto(r, active)
  {
    assert r.size > 0 ==> r.End() == r.log + r.size - 1;
    assert active.size > 0 ==> active.End() == active.log + active.size - 1;
    assert Covers(r, active.log) && Covers(active, active.log) ==> Overlap(r, active);
  }

  /** No region passes the end of the logical address space. */
  predicate AllInside(bits: seq<bool>, regions: seq<Region>) {
    |bits| == |regions| && forall j :: 0 <= j < |bits| && bits[j] ==> regions[j].log + regions[j].size <= TWO32
  }

  /** No two active regions share a logical address. */
  ghost predicate Disjoint(bits: seq<bool>, regions: seq<Region>) {
    && |bits| == |regions|
    && forall i, j :: 0 <= i < |bits| && 0 <= j < |bits| && i != j && bits[i] && bits[j] ==>
      !Overlap(regions[i], regions[j])
  }

  /** A region that passed validation keeps the active regions disjoint exactly when it reaches into none of them. */
  lemma AddedDisjoint(bits: seq<bool>, regions: seq<Region>, idx: nat, r: Region)
    requires Disjoint(bits, regions) && AllInside(bits, regions) && r.log + r.size <= TWO32
    requires idx < |bits| && !bits[idx] && forall j :: 0 <= j < |bits| && bits[j] ==> !StartsIn(r, regions[j])
    ensures Disjoint(bits[idx := true], regions[idx := r]) <==>
      forall j :: 0 <= j < |bits| && bits[j] ==> !ReachesInto(r, regions[j])
  {
    var bits', regions' := bits[idx := true], regions[idx := r];
    forall j | 0 <= j < |bits| && bits[j]
      ensures Overlap(r, regions[j]) <==> ReachesInto(r, regions[j])
      ensures Overlap(regions[j], r) <==> Overlap(r, regions[j])
    {
      OverlapMissed(r, regions[j]);
      assert forall a :: Covers(r, a) && Covers(regions[j], a) ==> Overlap(r, regions[j]) && Overlap(regions[j], r);
    }
    if Disjoint(bits', regions') {
      forall j | 0 <= j < |bits| && bits[j]
        ensures !ReachesInto(r, regions[j])
      {
        assert bits'[idx] && bits'[j] && idx != j && regions'[idx] == r && regions'[j] == regions[j];
      }
    }
  }

  /** The registers of a region, as its table entry wants them. */
  datatype Registers = Registers(rssla: nat, rsela: nat, ravL: nat, ravH: nat, roba: Attributes)

  /** What `atu_map_region` writes; the add value is split into two 32-bit halves. */
  function Encoded(r: Region, page: nat): Registers
    requires page > 0
  {
    var add := AddValue(r, page);
    Registers(r.log / page, r.End() / page, add % TWO32, add / TWO32, r.attributes)
  }

  /** The page of the address lies between the start and the end page that the registers hold. */
  predicate Matches(g: Registers, page: nat, a: nat)
    requires page > 0
  {
    g.rssla <= a / page <= g.rsela
  }

  /**
    The addresses that the registers of a region are to match: its own. One that passes the end of the address space
    matches none; an empty one none either, except at address 0, where its end page is the last of all.
  */
  predicate ToMatch(r: Region, page: nat, a: nat)
    requires page > 0
  {
    if r.size == 0 then r.log == 0 && a / page <= (TWO32 - 1) / page
    else r.log + r.size <= TWO32 && Covers(r, a)
  }

  /** The last page of a region that ends where a page starts. */
  lemma LastPage(n: nat, page: nat)
    requires page > 0 && n > 0 && n % page == 0
    ensures (n - 1) / page == n / page - 1
  {
    assert n == page * (n / page);
    DivideUnique(n - 1, page, n / page - 1, page - 1);
  }

  /** The pages of a region are those of its addresses. */
  lemma PagesMatch(log: nat, size: nat, page: nat, a: nat)
    requires page > 0 && size > 0 && log % page == 0 && size % page == 0
    ensures log / page <= a / page <= (log + size - 1) / page <==> log <= a < log + size
  {
    DivideSum(log, size, page);
    LastPage(log + size, page);
    PageBelow(a, log, page);
    PageBelow(a, log + size, page);
  }

  lemma AllPages(page: nat, a: nat)
    requires page > 0
    ensures 0 / page <= a / page
  {
    DivideUnique(0, page, 0, 0);
    QuotientBelow(a, page);
  }

  /** A region that ends before it starts has no page. */
  lemma NoPages(log: nat, end: nat, page: nat, a: nat)
    requires page > 0 && log % page == 0 && end < log
    ensures !(log / page <= a / page <= end / page)
  {
    PageBelow(end, log, page);
  }

  /** What is written into the registers matches exactly the addresses it is to match. */
  lemma RegistersMatch(r: Region, page: nat, a: nat)
    requires page > 0 && Aligned(r, page) && r.Fits()
    ensures Matches(Encoded(r, page), page, a) <==> ToMatch(r, page, a)
  {
    EndIs(r);
    EncodedPages(r, page);
    hide Encoded;
    if r.size == 0 && r.log == 0 {
      AllPages(page, a);
    } else if r.size == 0 || r.log + r.size > TWO32 {
      NoPages(r.log, r.End(), page, a);
    } else {
      PagesMatch(r.log, r.size, page, a);
    }
  }

  lemma EncodedPages(r: Region, page: nat)
    requires page > 0
    ensures Encoded(r, page).rssla == r.log / page && Encoded(r, page).rsela == r.End() / page
    ensures Encoded(r, page).roba == r.attributes
  {
  }

  class AtuDevice {
    /** `max_atu_region_count` and `page_size`, the log2 of the page. */
    const max: nat
    const ps: nat
    /** The bits of ATUC, and the registers of every region. */
    var atuc: seq<bool>
    var registers: seq<Registers>
    /** `active_regions`, `owner_id_list` and `active_regions_count`. */
    var regions: seq<Region>
    var owners: seq<Entity>
    var count: nat

    function Page(): (r: nat)
      ensures r > 0
    {
      Pow2(ps)
    }

    /** An active region is well formed, and its registers translate it as its table entry says. */
    predicate Active(r: Region, g: Registers) {
      Aligned(r, Page()) && r.Fits() && g == Encoded(r, Page())
    }

    ghost predicate Valid()
      reads this
    {
      && max <= 32 && |atuc| == |registers| == |regions| == |owners| == max
      && count == Count(atuc, max)
      && (forall j {:trigger owners[j]} :: 0 <= j < max ==> owners[j] == if atuc[j] then regions[j].owner else NoEntity)
      && (forall j {:trigger regions[j]} :: 0 <= j < max ==>
            if atuc[j] then Active(regions[j], registers[j]) else regions[j] == CLEARED)
    }

    /** A device whose registers are all clear. */
    constructor (max: nat, ps: nat)
      requires max <= 32
      ensures Valid() && this.max == max && this.ps == ps && atuc == seq(max, _ => false)
    {
      this.max, this.ps := max, ps;
      atuc, regions, owners := seq(max, _ => false), seq(max, _ => CLEARED), seq(max, _ => NoEntity);
      registers, count := seq(max, _ => Registers(0, 0, 0, 0, CLEARED.attributes)), 0;
      new;
      CountNone(atuc, max);
    }

    static lemma {:induction false} CountNone(bits: seq<bool>, n: nat)
      requires n <= |bits| && forall j :: 0 <= j < n ==> !bits[j]
      ensures Count(bits, n) == 0
    {
      if n == 0 {
      } else {
        CountNone(bits, n - 1);
      }
    }

    lemma BeginsExactly(r: Region)
      requires Valid()
      ensures forall j :: 0 <= j < max && atuc[j] ==> (StartsIn(r, regions[j]) <==> BeginsIn(r, regions[j]))
    {
      forall j | 0 <= j < max && atuc[j]
        ensures StartsIn(r, regions[j]) <==> BeginsIn(r, regions[j])
      {
        assert Active(regions[j], registers[j]);
        EndIs(regions[j]);
      }
    }

    /**
      `atu_validate_region`: walks the bits of ATUC until it has seen as many regions as are active. A region is
      rejected exactly when it is unaligned or starts in an active region.
    */
    method ValidateRegion(r: Region) returns (status: int)
      requires Valid()
      ensures status == E_ALIGN <==> !Aligned(r, Page())
      ensures status == E_SUPPORT <==>
        Aligned(r, Page()) && exists j :: 0 <= j < max && atuc[j] && StartsIn(r, regions[j])
      ensures status == SUCCESS || status == E_ALIGN || status == E_SUPPORT
      ensures status == SUCCESS <==>
        && r.phy % Page() == 0 && r.log % Page() == 0 && r.size % Page() == 0
        && forall j :: 0 <= j < max && atuc[j] ==> !BeginsIn(r, regions[j])
    {
      BeginsExactly(r);
      hide BeginsIn;
      if !Aligned(r, Page()) {
        return E_ALIGN;
      }
      var i, j := 0, 0;
      while i < count && j < max
        invariant j <= max && i <= Count(atuc, j)
        invariant forall k :: 0 <= k < j && atuc[k] ==> !StartsIn(r, regions[k])
      {
        if atuc[j] && regions[j].size != 0 {
          if regions[j].log <= r.log <= regions[j].End() {
            return E_SUPPORT;
          }
          i := i + 1;
        }
        j := j + 1;
      }
      forall k | j <= k < max && atuc[k]
        ensures false
      {
        CountGrows(atuc, j, k, max);
      }
      status := SUCCESS;
    }

    /** `atu_get_available_region_idx`: the lowest clear bit. */
    method GetAvailableRegionIdx() returns (status: int, idx: nat)
      requires Valid()
      ensures status == SUCCESS ==> idx < max && !atuc[idx] && forall k :: 0 <= k < idx ==> atuc[k]
      ensures status != SUCCESS ==> status == E_SUPPORT && forall k :: 0 <= k < max ==> atuc[k]
    {
      for pos := 0 to max
        invariant forall k :: 0 <= k < pos ==> atuc[k]
      {
        if !atuc[pos] {
          return SUCCESS, pos;
        }
      }
      status, idx := E_SUPPORT, 0;
    }

    /** `atu_validate_region_attributes`. */
    static method ValidateAttributes(a: Attributes) returns (status: int)
      ensures status == SUCCESS || status == E_PARAM
      ensures status == SUCCESS <==> a[AXNSE] != PASSTHROUGH && forall i :: 0 <= i < 8 ==> a[i] != RESERVED
    {
      for i := 0 to 8
        invariant forall k :: 0 <= k < i ==> a[k] != RESERVED && (k == AXNSE ==> a[k] != PASSTHROUGH)
      {
        if a[i] == RESERVED || (i == AXNSE && a[i] == PASSTHROUGH) {
          return E_PARAM;
        }
      }
      status := SUCCESS;
    }

    /** `atu_map_region` and `atu_enable_region`: an active region is refused, but only after it is overwritten. */
    method MapRegion(r: Region, idx: nat) returns (status: int)
      requires Valid() && r.Fits() && Aligned(r, Page())
      modifies this
      ensures Valid() && status == if idx >= max then E_SUPPORT else if old(atuc)[idx] then E_STATE else SUCCESS
      ensures idx >= max ==>
        && atuc == old(atuc) && regions == old(regions) && owners == old(owners) && registers == old(registers)
        && count == old(count)
      ensures idx < max ==> registers[idx].roba == r.attributes
      ensures idx < max ==> forall a {:trigger Matches(registers[idx], Page(), a)} ::
        Matches(registers[idx], Page(), a) <==> ToMatch(r, Page(), a)
      ensures idx < max ==>
        && atuc == old(atuc)[idx := true] && regions == old(regions)[idx := r]
        && owners == old(owners)[idx := r.owner] && registers == old(registers)[idx := Encoded(r, Page())]
        && count == old(count) + if old(atuc)[idx] then 0 else 1
    {
      if idx >= max {
        return E_SUPPORT;
      }
      forall a: nat
        ensures Matches(Encoded(r, Page()), Page(), a) <==> ToMatch(r, Page(), a)
      {
        RegistersMatch(r, Page(), a);
      }
      registers := registers[idx := Encoded(r, Page())];
      regions, owners := regions[idx := r], owners[idx := r.owner];
      if atuc[idx] {
        return E_STATE;
      }
      CountUpdate(atuc, idx, true, max);
      atuc := atuc[idx := true];
      count := count + 1;
      status := SUCCESS;
    }

    /** `atu_unmap_region` and `atu_disable_region`: an inactive region stays as it is. */
    method UnmapRegion(idx: nat) returns (status: int)
      requires Valid() && idx < max
      modifies this
      ensures Valid() && status == SUCCESS && count == old(count) - if old(atuc)[idx] then 1 else 0
      ensures atuc == old(atuc)[idx := false] && regions == old(regions)[idx := CLEARED]
      ensures owners == old(owners)[idx := NoEntity] && registers == old(registers)
    {
      owners, regions := owners[idx := NoEntity], regions[idx := CLEARED];
      if !atuc[idx] {
        return SUCCESS;
      }
      CountUpdate(atuc, idx, false, max);
      atuc := atuc[idx := false];
      count := count - 1;
      status := SUCCESS;
    }

    /** What `atu_add_region` checks of a region. */
    ghost predicate Acceptable(r: Region)
      requires Valid()
      reads this
    {
      && r.attributes[AXNSE] != PASSTHROUGH && (forall i :: 0 <= i < 8 ==> r.attributes[i] != RESERVED)
      && Aligned(r, Page())
      && (forall j :: 0 <= j < max && atuc[j] ==> !StartsIn(r, regions[j]))
    }

    /** `atu_add_region`. */
    method AddRegion(r: Region) returns (status: int, idx: nat)
      requires Valid() && r.Fits()
      modifies this
      ensures Valid()
      ensures status == SUCCESS <==> old(Acceptable(r)) && exists j :: 0 <= j < max && !old(atuc)[j]
      ensures status == SUCCESS ==>
        && idx < max && !old(atuc)[idx] && (forall k :: 0 <= k < idx ==> old(atuc)[k])
        && atuc == old(atuc)[idx := true] && regions == old(regions)[idx := r] && owners == old(owners)[idx := r.owner]
        && count == old(count) + 1
      ensures status == SUCCESS && old(Disjoint(atuc, regions)) && old(AllInside(atuc, regions)) &&
              r.log + r.size <= TWO32 ==>
        (Disjoint(atuc, regions) <==> forall j :: 0 <= j < max && old(atuc)[j] ==> !ReachesInto(r, old(regions)[j]))
      ensures status != SUCCESS ==>
        && (status == E_PARAM || status == E_ALIGN || status == E_SUPPORT)
        && atuc == old(atuc) && regions == old(regions) && owners == old(owners) && count == old(count)
    {
      idx := 0;
      status := ValidateAttributes(r.attributes);
      if status != SUCCESS {
        return;
      }
      status := ValidateRegion(r);
      if status != SUCCESS {
        return;
      }
      status, idx := GetAvailableRegionIdx();
      if status != SUCCESS {
        return;
      }
      if Disjoint(atuc, regions) && AllInside(atuc, regions) && r.log + r.size <= TWO32 {
        AddedDisjoint(atuc, regions, idx, r);
      }
      status := MapRegion(r, idx);
    }

    /** The first `n` regions are the configured ones, and no other is active. */
    ghost predicate Configured(table: seq<Region>, n: nat)
      requires Valid()
      reads this
    {
      && n <= max && n <= |table|
      && forall j :: 0 <= j < max ==> (atuc[j] <==> j < n) && (j < n ==> regions[j] == table[j])
    }

    /** The end of `atu_device_init`: adds the configured regions in order, up to the first that is refused. */
    method Configure(table: seq<Region>) returns (status: int, ghost n: nat)
      requires Valid() && (forall j :: 0 <= j < max ==> !atuc[j]) && forall i :: 0 <= i < |table| ==> table[i].Fits()
      modifies this
      ensures Valid() && Configured(table, n)
      ensures status == SUCCESS ==> n == |table|
      ensures status != SUCCESS ==> n < |table| && !(Acceptable(table[n]) && n < max)
    {
      status, n := SUCCESS, 0;
      for idx := 0 to |table|
        invariant Valid() && n == idx && Configured(table, n)
      {
        var slot;
        status, slot := AddRegion(table[idx]);
        if status != SUCCESS {
          return;
        }
        n := n + 1;
      }
      status := SUCCESS;
    }

    /** `atu_remove_region`: only the owner of an active region removes it. */
    method RemoveRegion(idx: nat, requester: Entity, entities: set<Entity>) returns (status: int)
      requires Valid() && NoEntity !in entities
      modifies this
      ensures Valid()
      ensures status == E_PARAM <==> idx >= max || requester !in entities
      ensures status == E_ACCESS <==>
        idx < max && requester in entities && !(old(atuc)[idx] && old(regions)[idx].owner == requester)
      ensures status == SUCCESS || status == E_PARAM || status == E_ACCESS
      ensures status == SUCCESS ==>
        && atuc == old(atuc)[idx := false] && regions == old(regions)[idx := CLEARED]
        && owners == old(owners)[idx := NoEntity] && count == old(count) - 1
      ensures status != SUCCESS ==>
        atuc == old(atuc) && regions == old(regions) && owners == old(owners) && count == old(count)
    {
      if idx >= max || requester !in entities {
        return E_PARAM;
      }
      if owners[idx] != requester {
        return E_ACCESS;
      }
      status := UnmapRegion(idx);
    }

    /** The physical address that the registers of region `j` give for a logical one, if they match it. */
    ghost function Translate(j: nat, a: nat): Option<nat>
      requires Valid() && j < max && atuc[j]
      reads this
    {
      if Matches(registers[j], Page(), a) then
        Some((a / Page() + registers[j].ravL + TWO32 * registers[j].ravH) % TWO64 * Page() + a % Page())
      else
        None
    }

    /** The registers of an active region match its addresses and hold its attributes. */
    lemma Programmed(j: nat, a: nat)
      requires Valid() && j < max && atuc[j]
      ensures Matches(registers[j], Page(), a) <==> ToMatch(regions[j], Page(), a)
      ensures registers[j].roba == regions[j].attributes
    {
      assert Active(regions[j], registers[j]);
      RegistersMatch(regions[j], Page(), a);
    }

    /** An active region translates exactly its own addresses, to those at the same distance from its physical base. */
    lemma Translates(j: nat, a: nat)
      requires Valid() && j < max && atuc[j] && regions[j].size > 0 && regions[j].log + regions[j].size <= TWO32
      requires Covers(regions[j], a) ==> regions[j].phy + (a - regions[j].log) < TWO64
      ensures Translate(j, a) == if Covers(regions[j], a) then Some(regions[j].phy + (a - regions[j].log)) else None
    {
      assert Active(regions[j], registers[j]);
      Programmed(j, a);
      if Covers(regions[j], a) {
        TranslationExact(regions[j], Page(), a);
      }
    }
  }

  lemma Page12()
    ensures Pow2(12) == 4096
  {
    assert Pow2(3) == 8 && Pow2(6) == 8 * Pow2(3) && Pow2(9) == 8 * Pow2(6);
  }

  /** Two regions of one and two pages, the second from a page below the first: both are accepted, and they overlap. */
  method OverlapAccepted(owner: Entity) returns (device: AtuDevice)
    ensures fresh(device) && device.Valid() && !Disjoint(device.atuc, device.regions)
  {
    device := new AtuDevice(2, 12);
    Page12();
    var upper := Region(owner, 0x2000, 0, 0x1000, [2, 2, 2, 2, 2, 2, 2, 2]);
    var lower := Region(owner, 0x1000, 0x10000, 0x2000, [2, 2, 2, 2, 2, 2, 2, 2]);
    assert !device.atuc[0] && !device.atuc[1];
    var status, i := device.AddRegion(upper);
    assert status == SUCCESS && i == 0 && !device.atuc[1];
    status, i := device.AddRegion(lower);
    assert status == SUCCESS && i == 1;
    assert Covers(device.regions[0], 0x2000) && Covers(device.regions[1], 0x2000);
  }

  /** The page number plus the add value modulo 2^64 is the physical page, also when it is below the logical one. */
  lemma TranslationExact(r: Region, page: nat, a: nat)
    requires page > 0 && Aligned(r, page) && r.log <= a && r.phy + (a - r.log) < TWO64
    ensures (a / page + AddValue(r, page)) % TWO64 * page + a % page == r.phy + (a - r.log)
  {
    var x := a - r.log;
    DivideSum(r.log, x, page);
    DivideSum(r.phy, x, page);
    QuotientBelow(r.phy + x, page);
    ModuloSum(r.log / page, r.phy / page, x / page, TWO64);
    DivideBack(r.phy, x, page);
  }
}
