/**
 * What a bus scan visits, told without the scan: configuration space presents a tree of buses, devices and bridges in
 * its registers, and the scan is the preorder of that tree.
 */
module PciTree {
  import opened Memory
  import opened PciConfig

  /** A bus with its 32 devices; a device has one function number or eight; behind a bridge there is another bus. */
  datatype Bus = Bus(number: byte, devices: seq<Device>)
  datatype Device = SingleFunction(only: Func) | MultiFunction(functions: seq<Func>)
  datatype Func = Missing | Leaf | Bridge(below: Bus)

  ghost predicate Shaped(t: Bus) {
    |t.devices| == 32 && forall d :: 0 <= d < 32 ==> ShapedDevice(t.devices[d])
  }

  ghost predicate ShapedDevice(x: Device) {
    match x
    case SingleFunction(f) => ShapedFunc(f)
    case MultiFunction(fs) => |fs| == 8 && forall i :: 0 <= i < 8 ==> ShapedFunc(fs[i])
  }

  /** A bridge whose secondary bus number is zero is not set up yet, and so counts as a leaf. */
  ghost predicate ShapedFunc(f: Func) {
    f.Bridge? ==> f.below.number != 0 && Shaped(f.below)
  }

  // ---------- the preorder ----------

  ghost function Preorder(t: Bus): seq<SourceId>
    requires Shaped(t)
    decreases t, 33
  {
    DevicesFrom(t, 0)
  }

  ghost function DevicesFrom(t: Bus, d: nat): seq<SourceId>
    requires Shaped(t) && d <= 32
    decreases t, 32 - d
  {
    if d == 32 then [] else DeviceOrder(t.number, d, t.devices[d]) + DevicesFrom(t, d + 1)
  }

  ghost function DeviceOrder(bus: byte, d: device5, x: Device): seq<SourceId>
    requires ShapedDevice(x)
    decreases x, 9
  {
    match x
    case SingleFunction(f) => FuncOrder(SourceId(bus, d, 0), f)
    case MultiFunction(_) => FunctionsFrom(bus, d, x, 0)
  }

  ghost function FunctionsFrom(bus: byte, d: device5, x: Device, i: nat): seq<SourceId>
    requires ShapedDevice(x) && x.MultiFunction? && i <= 8
    decreases x, 8 - i
  {
    if i == 8 then [] else FuncOrder(SourceId(bus, d, i), x.functions[i]) + FunctionsFrom(bus, d, x, i + 1)
  }

  ghost function FuncOrder(id: SourceId, f: Func): seq<SourceId>
    requires ShapedFunc(f)
    decreases f
  {
    match f
    case Missing => []
    case Leaf => [id]
    case Bridge(below) => [id] + Preorder(below)
  }

  // ---------- the registers ----------

  /** The header type of function 0, bit 7, says whether a device has eight function numbers. */
  ghost predicate Presents(cfg: ConfigSpace, seg: word, t: Bus)
    requires Shaped(t)
    decreases t
  {
    forall d: device5 :: PresentsDevice(cfg, seg, t.number, d, t.devices[d])
  }

  ghost predicate PresentsDevice(cfg: ConfigSpace, seg: word, bus: byte, d: device5, x: Device)
    requires ShapedDevice(x)
    decreases x
  {
    var multi := cfg.read8(seg, SourceId(bus, d, 0), 0x0E) >= 0x80;
    match x
    case SingleFunction(f) => !multi && PresentsFunc(cfg, seg, SourceId(bus, d, 0), f)
    case MultiFunction(fs) => multi && forall i: function3 :: PresentsFunc(cfg, seg, SourceId(bus, d, i), fs[i])
  }

  /** Vendor and device id; base class and subclass; secondary bus number. */
  ghost predicate PresentsFunc(cfg: ConfigSpace, seg: word, id: SourceId, f: Func)
    requires ShapedFunc(f)
    decreases f
  {
    var missing := cfg.read16(seg, id, 0x00) == 0xFFFF && cfg.read16(seg, id, 0x02) == 0xFFFF;
    var bridge := cfg.read8(seg, id, 0x0B) == 6 && cfg.read8(seg, id, 0x0A) == 4 && cfg.read8(seg, id, 0x19) != 0;
    match f
    case Missing => missing
    case Leaf => !missing && !bridge
    case Bridge(below) =>
      !missing && bridge && cfg.read8(seg, id, 0x19) == below.number && Presents(cfg, seg, below)
  }

  // ---------- the scan is the preorder ----------

  /** The tree's function with a number, if the scan looks at that number. */
  ghost function FuncAt(t: Bus, id: SourceId): Func
    requires Shaped(t)
  {
    assert ShapedDevice(t.devices[id.dev]);
    match t.devices[id.dev]
    case SingleFunction(f) => if id.fn == 0 then f else Missing
    case MultiFunction(fs) => fs[id.fn]
  }

  lemma FuncAtShaped(t: Bus, id: SourceId)
    requires Shaped(t)
    ensures ShapedFunc(FuncAt(t, id)) && (FuncAt(t, id).Bridge? ==> FuncAt(t, id).below < t)
  {
    assert ShapedDevice(t.devices[id.dev]);
  }

  /** What the scan makes of a function is what the tree says. */
  lemma ScannedFunc(cfg: ConfigSpace, seg: word, t: Bus, id: SourceId)
    requires Shaped(t) && Presents(cfg, seg, t) && id.bus == t.number
    ensures id.fn < MaxFunction(cfg, seg, id.bus, id.dev) <==> t.devices[id.dev].MultiFunction? || id.fn == 0
    ensures Scanned(cfg, seg, id) <==> FuncAt(t, id) != Missing
    ensures Scanned(cfg, seg, id) ==> (Descends(cfg, seg, id) <==> FuncAt(t, id).Bridge?)
    ensures FuncAt(t, id).Bridge? ==>
      var below := FuncAt(t, id).below;
      Shaped(below) && below < t && Secondary(cfg, seg, id) == below.number && Presents(cfg, seg, below)
  {
    FuncAtShaped(t, id);
    assert PresentsDevice(cfg, seg, t.number, id.dev, t.devices[id.dev]);
    hide Presents, Shaped;
  }

  lemma {:induction false} FuncInDevice(bus: byte, d: device5, x: Device, i: nat, id: SourceId)
    requires ShapedDevice(x) && x.MultiFunction? && i <= id.fn
    ensures |FunctionsFrom(bus, d, x, i)| >= |FuncOrder(SourceId(bus, d, id.fn), x.functions[id.fn])|
    decreases id.fn - i
  {
    if i < id.fn {
      FuncInDevice(bus, d, x, i + 1, id);
    }
  }

  lemma {:induction false} FuncInOrder(t: Bus, d: nat, id: SourceId)
    requires Shaped(t) && id.bus == t.number && d <= id.dev && FuncAt(t, id) != Missing
    ensures ShapedFunc(FuncAt(t, id)) && |FuncOrder(id, FuncAt(t, id))| <= |DevicesFrom(t, d)|
    decreases id.dev - d
  {
    FuncAtShaped(t, id);
    if d < id.dev {
      FuncInOrder(t, d + 1, id);
    } else if t.devices[d].MultiFunction? {
      FuncInDevice(t.number, d, t.devices[d], 0, id);
    }
  }

  lemma {:induction false} RoutesInTree(cfg: ConfigSpace, seg: word, t: Bus, p: seq<SourceId>)
    requires Shaped(t) && Presents(cfg, seg, t) && Route(cfg, seg, t.number, p)
    ensures |p| <= |Preorder(t)|
    decreases t
  {
    hide Shaped, Presents;
    ScannedFunc(cfg, seg, t, p[0]);
    FuncInOrder(t, 0, p[0]);
    if |p| > 1 {
      RoutesInTree(cfg, seg, FuncAt(t, p[0]).below, p[1..]);
    }
  }

  /** A bus that presents a tree has no loop behind it. */
  lemma TreeIsLoopFree(cfg: ConfigSpace, seg: word, t: Bus)
    requires Shaped(t) && Presents(cfg, seg, t)
    ensures LoopFree(cfg, seg, t.number)
  {
    forall p | Route(cfg, seg, t.number, p) ensures |p| <= |Preorder(t)| {
      RoutesInTree(cfg, seg, t, p);
    }
    assert DepthAtMost(cfg, seg, t.number, |Preorder(t)|);
    ScanEndsExactlyWhen(cfg, seg, t.number);
  }

  // ---------- the order ----------

  lemma {:induction false} FunctionsScan(cfg: ConfigSpace, seg: word, t: Bus, d: device5, i: nat)
    requires Shaped(t) && Presents(cfg, seg, t) && LoopFree(cfg, seg, t.number)
    requires t.devices[d].MultiFunction? && ShapedDevice(t.devices[d]) && i <= 8
    ensures d + 1 <= 32 && ScanFrom(cfg, seg, t.number, d, i) ==
      FunctionsFrom(t.number, d, t.devices[d], i) + ScanFrom(cfg, seg, t.number, d + 1, 0)
    decreases t, 1, 8 - i
  {
    ScannedFunc(cfg, seg, t, SourceId(t.number, d, 0));
    if i < 8 {
      ScannedFunc(cfg, seg, t, SourceId(t.number, d, i));
      SlotScan(cfg, seg, t, SourceId(t.number, d, i));
      FunctionsScan(cfg, seg, t, d, i + 1);
    }
  }

  lemma {:induction false} SlotScan(cfg: ConfigSpace, seg: word, t: Bus, id: SourceId)
    requires Shaped(t) && Presents(cfg, seg, t) && LoopFree(cfg, seg, t.number) && id.bus == t.number
    requires id.fn < MaxFunction(cfg, seg, id.bus, id.dev) && ShapedFunc(FuncAt(t, id))
    ensures ScanSlot(cfg, seg, id) == FuncOrder(id, FuncAt(t, id))
    decreases t, 0
  {
    ScannedFunc(cfg, seg, t, id);
    if FuncAt(t, id).Bridge? {
      LoopFreeBehind(cfg, seg, id);
      TreeScan(cfg, seg, FuncAt(t, id).below, 0);
    }
  }

  lemma {:induction false} TreeScan(cfg: ConfigSpace, seg: word, t: Bus, d: nat)
    requires Shaped(t) && Presents(cfg, seg, t) && LoopFree(cfg, seg, t.number) && d <= 32
    ensures ScanFrom(cfg, seg, t.number, d, 0) == DevicesFrom(t, d)
    decreases t, 2, 32 - d
  {
    if d < 32 {
      assert ShapedDevice(t.devices[d]);
      TreeScan(cfg, seg, t, d + 1);
      if t.devices[d].MultiFunction? {
        FunctionsScan(cfg, seg, t, d, 0);
      } else {
        var id := SourceId(t.number, d, 0);
        ScannedFunc(cfg, seg, t, id);
        ScannedFunc(cfg, seg, t, SourceId(t.number, d, 1));
        SlotScan(cfg, seg, t, id);
      }
    }
  }

  /** The scan of a bus that presents a tree visits the tree in preorder: it misses nothing, and makes nothing up. */
  lemma ScanIsPreorder(cfg: ConfigSpace, seg: word, t: Bus)
    requires Shaped(t) && Presents(cfg, seg, t)
    ensures LoopFree(cfg, seg, t.number) && ScanOrder(cfg, seg, t.number) == Preorder(t)
  {
    TreeIsLoopFree(cfg, seg, t);
    TreeScan(cfg, seg, t, 0);
  }

  /** Configuration space presents the tree at the bus. */
  ghost predicate IsTreeAt(cfg: ConfigSpace, seg: word, bus: byte, t: Bus) {
    t.number == bus && Shaped(t) && Presents(cfg, seg, t)
  }

  lemma TreesAreScanned(cfg: ConfigSpace, seg: word, bus: byte)
    requires LoopFree(cfg, seg, bus)
    ensures forall t :: IsTreeAt(cfg, seg, bus, t) ==> Shaped(t) && Preorder(t) == ScanOrder(cfg, seg, bus)
  {
    forall t | IsTreeAt(cfg, seg, bus, t) ensures Shaped(t) && Preorder(t) == ScanOrder(cfg, seg, bus) {
      ScanIsPreorder(cfg, seg, t);
    }
  }

  // ---------- every loop-free bus presents a tree ----------

  ghost function TreeOf(cfg: ConfigSpace, seg: word, bus: byte): (t: Bus)
    requires LoopFree(cfg, seg, bus)
    ensures IsTreeAt(cfg, seg, bus, t)
    decreases Rank(cfg, seg, bus), 2
  {
    var t := Bus(bus, seq(32, d requires 0 <= d < 32 => DeviceOf(cfg, seg, bus, d)));
    assert forall d :: 0 <= d < 32 ==> t.devices[d] == DeviceOf(cfg, seg, bus, d);
    t
  }

  ghost function DeviceOf(cfg: ConfigSpace, seg: word, bus: byte, d: device5): (x: Device)
    requires LoopFree(cfg, seg, bus)
    ensures ShapedDevice(x) && PresentsDevice(cfg, seg, bus, d, x)
    decreases Rank(cfg, seg, bus), 1
  {
    if cfg.read8(seg, SourceId(bus, d, 0), 0x0E) < 0x80 then SingleFunction(FuncOf(cfg, seg, SourceId(bus, d, 0)))
    else
      var fs := seq(8, i requires 0 <= i < 8 => FuncOf(cfg, seg, SourceId(bus, d, i)));
      assert forall i :: 0 <= i < 8 ==> fs[i] == FuncOf(cfg, seg, SourceId(bus, d, i));
      MultiFunction(fs)
  }

  ghost function FuncOf(cfg: ConfigSpace, seg: word, id: SourceId): (f: Func)
    requires LoopFree(cfg, seg, id.bus)
    requires id.fn == 0 || cfg.read8(seg, SourceId(id.bus, id.dev, 0), 0x0E) >= 0x80
    ensures ShapedFunc(f) && PresentsFunc(cfg, seg, id, f)
    decreases Rank(cfg, seg, id.bus), 0
  {
    if !Present(cfg, seg, id) then Missing
    else if !Descends(cfg, seg, id) then Leaf
    else
      LoopFreeBehind(cfg, seg, id);
      Bridge(TreeOf(cfg, seg, Secondary(cfg, seg, id)))
  }

  // ---------- the same, from single registers ----------

  lemma {:induction false} RouteEndsScanned(cfg: ConfigSpace, seg: word, bus: byte, p: seq<SourceId>)
    requires Route(cfg, seg, bus, p)
    ensures Scanned(cfg, seg, p[|p| - 1])
    decreases |p|
  {
    if |p| > 1 {
      RouteEndsScanned(cfg, seg, Secondary(cfg, seg, p[0]), p[1..]);
    }
  }

  /**
   * Of the functions on the scanned bus itself exactly those are visited whose ids read as anything but all ones:
   * function 0 of every device, and the others if bit 7 of the header type of function 0 is set.
   */
  lemma OwnBusIsScanned(cfg: ConfigSpace, seg: word, id: SourceId)
    requires LoopFree(cfg, seg, id.bus)
    ensures id in ScanOrder(cfg, seg, id.bus) <==>
      && (id.fn == 0 || cfg.read8(seg, SourceId(id.bus, id.dev, 0), 0x0E) >= 0x80)
      && !(cfg.read16(seg, id, 0x00) == 0xFFFF && cfg.read16(seg, id, 0x02) == 0xFFFF)
  {
    ScanOrderIsReachability(cfg, seg, id.bus, id);
    if Reachable(cfg, seg, id.bus, id) {
      var p :| Route(cfg, seg, id.bus, p) && p[|p| - 1] == id;
      RouteEndsScanned(cfg, seg, id.bus, p);
    } else if Scanned(cfg, seg, id) {
      assert Route(cfg, seg, id.bus, [id]);
    }
  }
}
