/**
 Printing of radio ids from USB data (`list_sdr_devices`) and their way back to a device path
 (`device_id_to_usb_path`).
 */
module DeviceId {
  import opened Values
  import opened Text
  import opened Numerals
  import opened Sdr
  import opened SdrEnrich

  // ---- printer and parser ----------------------------------------------------------------------

  datatype UsbDevice = UsbDevice(vendorId: nat, productId: nat, serial: Option<string>, bus: nat, address: nat)

  /** The integer widths of the source: 16-bit ids, 8-bit bus and address. */
  predicate InWidth(usb: UsbDevice) {
    usb.vendorId < 0x10000 && usb.productId < 0x10000 && usb.bus < 0x100 && usb.address < 0x100
  }

  function PrintedId(usb: UsbDevice): string
    requires InWidth(usb)
  {
    Hex4(usb.vendorId) + ":" + Hex4(usb.productId) + "-" + (if usb.serial.Some? then usb.serial.value else "unknown")
    + "-bus" + Pad3(usb.bus) + "-dev" + Pad3(usb.address)
  }

  function UsbPath(bus: nat, address: nat): string {
    "/dev/bus/usb/" + Pad3(bus) + "/" + Pad3(address)
  }

  function DeviceIdToUsbPath(id: string): Option<string> {
    match RSplitOnce(id, "-dev")
    case None => None
    case Some((beforeDev, dev)) =>
      match RSplitOnce(beforeDev, "-bus")
      case None => None
      case Some((_, bus)) =>
        match (ParseU16(bus), ParseU16(dev))
        case (Some(b), Some(d)) => Some(UsbPath(b, d))
        case _ => None
  }

  /** A pattern that starts with a dash and is followed only by digits is the last one of its kind. */
  lemma DashBeforeDigitsIsLast(before: string, pat: string, digits: string)
    requires pat != "" && pat[0] == '-' && (forall k | 0 < k < |pat| :: pat[k] != '-') && AllDigits(digits)
    ensures RSplitOnce(before + pat + digits, pat) == Some((before, digits))
  {
    var s := before + pat + digits;
    forall k: nat | |before| < k <= |s|
      ensures !OccursAt(s, pat, k)
    {
      if |before| + |pat| <= k < |s| {
        assert s[k] == digits[k - |before| - |pat|] && s[k] in digits;
      }
      if OccursAt(s, pat, k) {
        OccursStart(s, pat, k);
      }
    }
    assert OccursAt(s, pat, |before|);
    RSplitAtLast(s, pat, |before|, |s|);
    assert s[..|before|] == before && s[|before| + |pat|..] == digits;
  }

  /** Whatever the serial contains, even "-bus" or "-dev", parsing a printed id gives exactly its bus and address. */
  lemma PathOfPrintedId(usb: UsbDevice)
    requires InWidth(usb)
    ensures DeviceIdToUsbPath(PrintedId(usb)) == Some(UsbPath(usb.bus, usb.address))
  {
    PadRoundTrip(usb.bus);
    PadRoundTrip(usb.address);
    var serial := if usb.serial.Some? then usb.serial.value else "unknown";
    var head := Hex4(usb.vendorId) + ":" + Hex4(usb.productId) + "-" + serial;
    var beforeDev := head + "-bus" + Pad3(usb.bus);
    assert PrintedId(usb) == beforeDev + "-dev" + Pad3(usb.address);
    DashBeforeDigitsIsLast(beforeDev, "-dev", Pad3(usb.address));
    DashBeforeDigitsIsLast(head, "-bus", Pad3(usb.bus));
  }

  lemma UsbPathIsInjective(x: UsbDevice, y: UsbDevice)
    requires InWidth(x) && InWidth(y) && UsbPath(x.bus, x.address) == UsbPath(y.bus, y.address)
    ensures x.bus == y.bus && x.address == y.address
  {
    PadRoundTrip(x.bus);
    PadRoundTrip(y.bus);
    PadRoundTrip(x.address);
    PadRoundTrip(y.address);
    var p, q := UsbPath(x.bus, x.address), UsbPath(y.bus, y.address);
    assert Pad3(x.bus) == p[13..16] == q[13..16] == Pad3(y.bus);
    assert Pad3(x.address) == p[17..] == q[17..] == Pad3(y.address);
  }

  /** Different (bus, address) pairs never share an id. */
  lemma SameIdSamePlace(x: UsbDevice, y: UsbDevice)
    requires InWidth(x) && InWidth(y) && PrintedId(x) == PrintedId(y)
    ensures x.bus == y.bus && x.address == y.address
  {
    PathOfPrintedId(x);
    PathOfPrintedId(y);
    UsbPathIsInjective(x, y);
  }

  /** Equal ids also mean the same vendor and product. */
  lemma SameIdSameKind(x: UsbDevice, y: UsbDevice)
    requires InWidth(x) && InWidth(y) && PrintedId(x) == PrintedId(y)
    ensures x.vendorId == y.vendorId && x.productId == y.productId
  {
    hide Hex4, HexDigitValue, Pad3;
    Hex4RoundTrip(x.vendorId);
    Hex4RoundTrip(y.vendorId);
    Hex4RoundTrip(x.productId);
    Hex4RoundTrip(y.productId);
    var p, q := PrintedId(x), PrintedId(y);
    assert Hex4(x.vendorId) == p[..4] == q[..4] == Hex4(y.vendorId);
    assert Hex4(x.productId) == p[5..9] == q[5..9] == Hex4(y.productId);
  }

  // ---- the device list -------------------------------------------------------------------------

  /** `KNOWN_SDR_DEVICES`, without names and types. */
  const KNOWN_SDR_DEVICES: set<(nat, nat)> := {
    (0x0bda, 0x2838), (0x0bda, 0x2832), (0x1d50, 0x60a1), (0x03eb, 0x800c), (0x1d50, 0x6089), (0x1df7, 0x2500),
    (0x1df7, 0x3000), (0x1df7, 0x3010), (0x1df7, 0x3020), (0x04d8, 0xfb31), (0x04d8, 0xfb56)
  }

  function ListSdrDevices(usb: seq<UsbDevice>): seq<SdrDevice>
    requires forall u | u in usb :: InWidth(u)
  {
    if usb == [] then []
    else
      var rest := ListSdrDevices(usb[1..]);
      if (usb[0].vendorId, usb[0].productId) in KNOWN_SDR_DEVICES then
        [SdrDevice(PrintedId(usb[0]), usb[0].serial, "available", None)] + rest
      else rest
  }

  predicate AllInWidth(usb: seq<UsbDevice>) {
    forall u | u in usb :: InWidth(u)
  }

  /** The list of a scan is made up of the lists of its parts, in order. */
  lemma {:induction false} ListedInParts(front: seq<UsbDevice>, back: seq<UsbDevice>)
    requires AllInWidth(front) && AllInWidth(back)
    ensures AllInWidth(front + back)
    ensures ListSdrDevices(front + back) == ListSdrDevices(front) + ListSdrDevices(back)
  {
    hide PrintedId, InWidth;
    if front == [] {
      assert front + back == back;
    } else {
      assert (front + back)[1..] == front[1..] + back;
      ListedInParts(front[1..], back);
    }
  }

  /**
   One USB device is listed exactly when it is a known radio, with its printed id and its own serial, as available.
   */
  lemma ListedExactly(u: UsbDevice)
    requires InWidth(u)
    ensures ListSdrDevices([u]) == if (u.vendorId, u.productId) in KNOWN_SDR_DEVICES
      then [SdrDevice(PrintedId(u), u.serial, "available", None)] else []
  {
    assert [u][1..] == [];
  }

  lemma PrintedIdIsTrimmed(usb: UsbDevice)
    requires InWidth(usb)
    ensures PrintedId(usb) != "" && Trim(PrintedId(usb)) == PrintedId(usb)
  {
    var id := PrintedId(usb);
    PadRoundTrip(usb.address);
    var last := Pad3(usb.address)[|Pad3(usb.address)| - 1];
    assert last in Pad3(usb.address) && id[|id| - 1] == last;
    assert !IsWhite(id[0]) && !IsWhite(last);
  }

  lemma {:induction false} ListedFrom(usb: seq<UsbDevice>, d: SdrDevice) returns (u: UsbDevice)
    requires (forall u | u in usb :: InWidth(u)) && d in ListSdrDevices(usb)
    ensures u in usb && d.id == PrintedId(u)
  {
    if (usb[0].vendorId, usb[0].productId) in KNOWN_SDR_DEVICES && d.id == PrintedId(usb[0]) {
      u := usb[0];
    } else {
      u := ListedFrom(usb[1..], d);
    }
  }

  /** A device listed from other places does not have this one's id. */
  lemma ListedElsewhere(usb: seq<UsbDevice>, u: UsbDevice, d: SdrDevice)
    requires (forall x | x in usb :: InWidth(x) && (x.bus != u.bus || x.address != u.address)) && InWidth(u)
    requires d in ListSdrDevices(usb)
    ensures d.id != PrintedId(u) && d.id != "" && Trim(d.id) == d.id
  {
    hide PrintedId, Trim;
    var x := ListedFrom(usb, d);
    PrintedIdIsTrimmed(x);
    if PrintedId(x) == PrintedId(u) {
      SameIdSamePlace(x, u);
    }
  }

  /** USB devices at distinct places give the device table that radio exclusivity relies on. */
  lemma {:induction false} ListedDevicesAreATable(usb: seq<UsbDevice>)
    requires forall u | u in usb :: InWidth(u)
    requires forall i, j | 0 <= i < j < |usb| :: usb[i].bus != usb[j].bus || usb[i].address != usb[j].address
    ensures DeviceTable(ListSdrDevices(usb))
  {
    hide PrintedId, Trim, InWidth;
    if usb != [] {
      var rest, tail := ListSdrDevices(usb[1..]), usb[1..];
      assert forall i | 0 <= i < |tail| :: tail[i] == usb[i + 1];
      ListedDevicesAreATable(tail);
      PrintedIdIsTrimmed(usb[0]);
      forall x | x in tail
        ensures InWidth(x) && (x.bus != usb[0].bus || x.address != usb[0].address)
      {
        var k :| 0 <= k < |tail| && tail[k] == x;
        assert usb[k + 1] == x;
      }
      forall d | d in rest
        ensures d.id != PrintedId(usb[0])
      {
        ListedElsewhere(tail, usb[0], d);
      }
      assert forall j | 0 <= j < |rest| :: rest[j] in rest;
    }
  }
}
