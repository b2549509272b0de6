/** The remapping units as the VT-d dump keeps them: growable device arrays, filled by bus scans. */
module VtdTable {
  import opened Memory
  import opened PciConfig
  import opened PciTree
  import opened VtdUnits
  import opened VtdFill

  const ZERO_DEVICE := PciDevice(0, SourceId(0, 0, 0), 0, 0, 0, 0, 0)

  /** VTD_UNIT_INFORMATION with its PCI_DEVICE_INFORMATION. */
  class Unit {
    var base: nat
    var segment: word
    var includeAll: bool
    var number: nat
    var maxNumber: nat
    var data: array?<PciDevice>

    ghost predicate Valid()
      reads this, data
    {
      && number <= maxNumber
      && (data == null ==> maxNumber == 0)
      && (data != null ==> data.Length == maxNumber)
    }

    ghost function View(): UnitView
      reads this, data
      requires Valid()
    {
      UnitView(base, segment, includeAll, if data == null then [] else data[..number])
    }

    /** Zero-filled, as AllocateZeroPool leaves it. */
    constructor ()
      ensures Valid() && data == null && View() == UnitView(0, 0, false, [])
    {
      base, segment, includeAll, number, maxNumber, data := 0, 0, false, 0, 0, null;
    }

    /** AllocateZeroPool for a device array, if there is room for it. */
    static method AllocateDevices(n: nat, room: bool) returns (a: array?<PciDevice>)
      ensures a != null <==> room
      ensures a != null ==> fresh(a) && a.Length == n && forall i :: 0 <= i < n ==> a[i] == ZERO_DEVICE
    {
      if !room {
        return null;
      }
      a := new PciDevice[n](_ => ZERO_DEVICE);
    }

    /** Makes room for more devices, keeping every entry at its index. */
    method Grow(room: bool) returns (ok: bool)
      requires Valid()
      modifies this
      ensures Valid() && View() == old(View()) && ok == room
      ensures if ok then maxNumber == old(maxNumber) + 256 && fresh(data)
        else maxNumber == old(maxNumber) && data == old(data)
      ensures number == old(number)
    {
      var a := AllocateDevices(maxNumber + MAX_VTD_PCI_DATA_NUMBER, room);
      if a == null {
        return false;
      }
      if data != null {
        forall i | 0 <= i < number {
          a[i] := data[i];
        }
        assert a[..number] == data[..number];
      }
      maxNumber, data := maxNumber + MAX_VTD_PCI_DATA_NUMBER, a;
      return true;
    }

    /** Fills the next entry of the array. */
    method Append(d: PciDevice)
      requires Valid() && number < maxNumber
      modifies this`number, data
      ensures Valid() && data == old(data)
      ensures View() == old(View()).(devices := old(View().devices) + [d])
    {
      data[number] := d;
      number := number + 1;
      assert data[..number] == old(data[..number]) + [d];
    }
  }

  class Table {
    const units: seq<Unit>
    /** Whether each allocation, by its number, finds room; and the number of allocations so far. */
    const pool: Pool
    var attempts: nat

    ghost predicate Valid()
      reads this, units, set u | u in units :: u.data
    {
      && (forall i, j :: 0 <= i < j < |units| ==> units[i] != units[j])
      && (forall i :: 0 <= i < |units| ==> units[i].Valid())
      && (forall i, j :: 0 <= i < j < |units| && units[i].data != null ==> units[i].data != units[j].data)
    }

    ghost function Views(): (vs: seq<UnitView>)
      reads this, units, set u | u in units :: u.data
      requires Valid()
      ensures |vs| == |units|
    {
      seq(|units|, i requires 0 <= i < |units| && units[i].Valid()
                     reads units, set u | u in units :: u.data => units[i].View())
    }

    constructor (us: seq<Unit>, pool: Pool)
      requires forall i, j :: 0 <= i < j < |us| ==> us[i] != us[j]
      requires forall i :: 0 <= i < |us| ==>
        us[i].Valid() && us[i].data == null && us[i].View() == UnitView(0, 0, false, [])
      ensures units == us && this.pool == pool && attempts == 1 && Valid() && Blank(Views(), 0) && Separated(Views())
    {
      units, this.pool, attempts := us, pool, 1;
    }

    /** Where the filling of unit k stands. */
    ghost function FillOf(k: nat): (f: Fill)
      reads this, units, set u | u in units :: u.data
      requires Valid() && k < |units|
      ensures f.k == k && |f.units| == |units|
    {
      Fill(Views(), k, units[k].maxNumber, attempts)
    }

    /** The index of the id in unit k, if the unit belongs to the segment and has it. */
    method GetPciDataIndex(k: nat, seg: word, id: SourceId) returns (index: int)
      requires Valid() && k < |units|
      ensures index == -1 <==> !Registered(Views()[k], seg, id)
      ensures index != -1 ==> 0 <= index < |Views()[k].devices| && Views()[k].devices[index].id == id
      ensures index != -1 ==> forall i :: 0 <= i < index ==> Views()[k].devices[i].id != id
    {
      var u := units[k];
      ghost var view := Views()[k];
      if seg != u.segment {
        return -1;
      }
      index := 0;
      while index < u.number
        invariant 0 <= index <= u.number
        invariant forall i :: 0 <= i < index ==> view.devices[i].id != id
      {
        if u.data[index].id == id {
          return;
        }
        index := index + 1;
      }
      return -1;
    }

    /** A change inside unit k, which may give it a fresh array, leaves every other unit as it was. */
    twostate lemma OnlyUnitChanged(k: nat)
      requires old(Valid()) && k < |units|
      requires units[k].Valid() && (units[k].data == old(units[k].data) || fresh(units[k].data))
      requires forall j :: 0 <= j < |units| && j != k ==>
        unchanged(units[j]) && (units[j].data != null ==> unchanged(units[j].data))
      ensures Valid() && Views() == old(Views())[k := units[k].View()]
    {
      forall j | 0 <= j < |units| && j != k ensures units[j].Valid() && units[j].View() == old(units[j].View()) {
      }
    }

    /** Whether a unit before k has registered the device. */
    method RegisteredEarlier(k: nat, seg: word, id: SourceId) returns (found: bool)
      requires Valid() && k < |units|
      ensures found <==> exists j :: 0 <= j < k && Registered(Views()[j], seg, id)
    {
      var j := 0;
      while j < k
        invariant j <= k
        invariant forall i :: 0 <= i < j ==> !Registered(Views()[i], seg, id)
      {
        var index := GetPciDataIndex(j, seg, id);
        if index != -1 {
          return true;
        }
        j := j + 1;
      }
      return false;
    }

    /** Adds a device; an allocation is tried exactly when the array is full, and only its failure is an error. */
    method AddDevice(k: nat, d: PciDevice) returns (status: Status)
      requires Valid() && k < |units|
      modifies this`attempts, units[k], units[k].data
      ensures Valid()
      ensures units[k].data == old(units[k].data) || fresh(units[k].data)
      ensures var f := old(FillOf(k));
        if Refused(f, pool) then status == OutOfResources && FillOf(k) == f.(attempts := f.attempts + 1)
        else status == Success && FillOf(k) == Added(f, d)
    {
      var u := units[k];
      assert u.number == |u.View().devices|;
      var ok := true;
      if u.number >= u.maxNumber {
        ok := u.Grow(pool(attempts));
        attempts := attempts + 1;
      }
      if ok {
        u.Append(d);
        status := Success;
      } else {
        status := OutOfResources;
      }
      OnlyUnitChanged(k);
    }

    method RegisterPciDevice(cfg: ConfigSpace, k: nat, seg: word, id: SourceId, deviceType: byte, checkExist: bool)
        returns (status: Status)
      requires Valid() && k < |units|
      modifies this`attempts, units[k], units[k].data
      ensures Valid()
      ensures units[k].data == old(units[k].data) || fresh(units[k].data)
      ensures Step(FillOf(k), status) == RegisterIn(old(FillOf(k)), cfg, pool, seg, id, deviceType, checkExist)
    {
      hide Refused, Added;
      if units[k].includeAll {
        var claimed := RegisteredEarlier(k, seg, id);
        if claimed {
          return Success;
        }
      }
      var index := GetPciDataIndex(k, seg, id);
      if index == -1 {
        status := AddDevice(k, ReadDevice(cfg, seg, id, deviceType));
      } else if checkExist {
        return AlreadyStarted;
      } else {
        return Success;
      }
    }

    method ScanBusCallbackRegisterPciDevice(cfg: ConfigSpace, k: nat, seg: word, bus: byte, dev: device5, fn: function3)
        returns (status: Status)
      requires Valid() && k < |units|
      modifies this`attempts, units[k], units[k].data
      ensures Valid()
      ensures units[k].data == old(units[k].data) || fresh(units[k].data)
      ensures Step(FillOf(k), status) == ScanIn(old(FillOf(k)), cfg, pool, seg, [SourceId(bus, dev, fn)])
    {
      hide RegisterIn, ScanIn;
      var id := SourceId(bus, dev, fn);
      var deviceType := ENDPOINT;
      if cfg.read8(seg, id, BASE_CLASS) == CLASS_BRIDGE {
        if cfg.read8(seg, id, SUB_CLASS) == CLASS_BRIDGE_P2P {
          deviceType := BRIDGE;
        }
      }
      ScanInOne(FillOf(k), cfg, pool, seg, id);
      status := RegisterPciDevice(cfg, k, seg, id, deviceType, false);
    }

    /** Registers everything behind a bus, in scan order; a failed allocation stops the scan. */
    method ScanPciBus(cfg: ConfigSpace, k: nat, seg: word, bus: byte) returns (status: Status)
      requires Valid() && k < |units| && LoopFree(cfg, seg, bus)
      modifies this`attempts, units[k], units[k].data
      ensures Valid()
      ensures units[k].data == old(units[k].data) || fresh(units[k].data)
      ensures Step(FillOf(k), status) == ScanIn(old(FillOf(k)), cfg, pool, seg, ScanOrder(cfg, seg, bus))
      ensures forall t :: IsTreeAt(cfg, seg, bus, t) ==>
        Step(FillOf(k), status) == ScanIn(old(FillOf(k)), cfg, pool, seg, Preorder(t))
      decreases Rank(cfg, seg, bus), 2
    {
      TreesAreScanned(cfg, seg, bus);
      hide ScanIn, FillOf, Views, Valid, IsTreeAt;
      ghost var goal := ScanIn(FillOf(k), cfg, pool, seg, ScanOrder(cfg, seg, bus));
      var dev := 0;
      while dev < 32
        invariant dev <= 32 && Valid()
        invariant units[k].data == old(units[k].data) || fresh(units[k].data)
        invariant goal == ScanIn(FillOf(k), cfg, pool, seg, ScanFrom(cfg, seg, bus, dev, 0))
      {
        status := ScanDevice(cfg, k, seg, bus, dev);
        if status != Success {
          return;
        }
        dev := dev + 1;
      }
      ScanInOne(FillOf(k), cfg, pool, seg, SourceId(0, 0, 0));
      status := Success;
    }

    /** The functions of one device; what is left of the bus is left to be done. */
    method ScanDevice(cfg: ConfigSpace, k: nat, seg: word, bus: byte, dev: device5)
        returns (status: Status)
      requires Valid() && k < |units| && LoopFree(cfg, seg, bus)
      modifies this`attempts, units[k], units[k].data
      ensures Valid()
      ensures units[k].data == old(units[k].data) || fresh(units[k].data)
      ensures ScanIn(old(FillOf(k)), cfg, pool, seg, ScanFrom(cfg, seg, bus, dev, 0)) ==
        Then(Step(FillOf(k), status), cfg, pool, seg, ScanFrom(cfg, seg, bus, dev + 1, 0))
      decreases Rank(cfg, seg, bus), 1
    {
      hide ScanIn, FillOf, Views, Valid, ScanSlot;
      ghost var goal := ScanIn(FillOf(k), cfg, pool, seg, ScanFrom(cfg, seg, bus, dev, 0));
      var maxFunction := if cfg.read8(seg, SourceId(bus, dev, 0), HEADER_TYPE) < 0x80 then 1 else 8;
      var fn := 0;
      while fn < maxFunction
        invariant fn <= maxFunction && Valid()
        invariant units[k].data == old(units[k].data) || fresh(units[k].data)
        invariant goal == ScanIn(FillOf(k), cfg, pool, seg, ScanFrom(cfg, seg, bus, dev, fn))
      {
        ghost var id, rest := SourceId(bus, dev, fn), ScanFrom(cfg, seg, bus, dev, fn + 1);
        ScanInAppend(FillOf(k), cfg, pool, seg, ScanSlot(cfg, seg, id), rest);
        status := ScanFunction(cfg, k, seg, bus, dev, fn);
        if status != Success {
          return;
        }
        fn := fn + 1;
      }
      status := Success;
    }

    /** One function: if it is present, the callback and then the bus behind it. */
    method ScanFunction(cfg: ConfigSpace, k: nat, seg: word, bus: byte, dev: device5, fn: function3)
        returns (status: Status)
      requires Valid() && k < |units| && LoopFree(cfg, seg, bus) && fn < MaxFunction(cfg, seg, bus, dev)
      modifies this`attempts, units[k], units[k].data
      ensures Valid()
      ensures units[k].data == old(units[k].data) || fresh(units[k].data)
      ensures Step(FillOf(k), status) ==
        ScanIn(old(FillOf(k)), cfg, pool, seg, ScanSlot(cfg, seg, SourceId(bus, dev, fn)))
      decreases Rank(cfg, seg, bus), 0
    {
      hide ScanIn, FillOf, Views, Valid, ScanFrom;
      ghost var id := SourceId(bus, dev, fn);
      ScanInOne(FillOf(k), cfg, pool, seg, id);
      if cfg.read16(seg, SourceId(bus, dev, fn), VENDOR_ID) == 0xFFFF &&
        cfg.read16(seg, SourceId(bus, dev, fn), DEVICE_ID) == 0xFFFF {
        return Success;
      }
      ScanInAppend(FillOf(k), cfg, pool, seg, [id], Below(cfg, seg, id));
      status := ScanBusCallbackRegisterPciDevice(cfg, k, seg, bus, dev, fn);
      if status != Success {
        return;
      }
      ScanInOne(FillOf(k), cfg, pool, seg, id);
      if cfg.read8(seg, SourceId(bus, dev, fn), BASE_CLASS) == CLASS_BRIDGE {
        if cfg.read8(seg, SourceId(bus, dev, fn), SUB_CLASS) == CLASS_BRIDGE_P2P {
          var secondary := cfg.read8(seg, SourceId(bus, dev, fn), SECONDARY_BUS);
          if secondary != 0 {
            LoopFreeBehind(cfg, seg, id);
            status := ScanPciBus(cfg, k, seg, secondary);
          }
        }
      }
    }
  }
}
