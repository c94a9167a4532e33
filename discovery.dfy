/** The record-building rules of `usb_device_list_get` (usb.c). The udev enumeration itself is
    not modelled: each scsi device it reports is a `Candidate` holding what the lookups found
    (the usb parent's attributes, the block child's, whether a scsi_disk child exists) and the
    partitions enumerated under the block child, each attribute as the text udev returns. */
module Discovery {
  import opened LinkedList
  import opened Numeric
  import opened Inventory

  /** The attributes read from the usb parent (`usb`/`usb_device`). */
  datatype UsbParent = UsbParent(
    manufacturer: string,
    product: string,
    serial: string,
    devPath: string,
    sysPath: string,
    speed: string,
    version: string,
    maxChild: string,
    busNum: string)

  /** The block child: its device node, its `size` attribute (in 512-byte sectors) and its
      `ID_FS_LABEL` property, absent when udev returns NULL. */
  datatype BlockChild = BlockChild(node: string, sectors: string, fsLabel: Option<string>)

  /** One partition enumerated under the block child: node, sys path, `partition` attribute
      (its number as text), `size` attribute and `ID_FS_LABEL` property. */
  datatype PartitionCandidate = PartitionCandidate(
    node: string,
    sysPath: string,
    numText: string,
    sectors: string,
    fsLabel: Option<string>)

  /** One scsi device reported by the enumeration, with the results of its lookups. */
  datatype Candidate = Candidate(
    usb: Option<UsbParent>,
    block: Option<BlockChild>,
    hasScsiDisk: bool,
    partitions: seq<PartitionCandidate>)

  const SizeModulus: nat := 0x1_0000_0000_0000_0000

  /** A candidate becomes a device only when its usb parent, block child and scsi_disk child
      were all found. */
  predicate Keep(c: Candidate)
  {
    c.usb.Some? && c.block.Some? && c.hasScsiDisk
  }

  /** An absent label is stored as the empty string. */
  function LabelOrEmpty(fsLabel: Option<string>): string
  {
    match fsLabel
    case None => ""
    case Some(l) => l
  }

  /** `atol(sectors) * (size_t)512`: the product in 64-bit unsigned arithmetic. */
  function SectorBytes(sectors: string): nat
  {
    (Atoi(sectors) * 512) % SizeModulus
  }

  /** The `dev_path` of a partition: the device's, a dash, and the partition's number text. */
  function PartitionDevPath(devPath: string, numText: string): string
  {
    devPath + "-" + numText
  }

  function MakePartition(devPath: string, pc: PartitionCandidate): Partition
  {
    Partition(pc.node, Atoi(pc.numText), PartitionDevPath(devPath, pc.numText), LabelOrEmpty(pc.fsLabel),
              pc.sysPath, SectorBytes(pc.sectors))
  }

  /** The partitions of a device, in enumeration order. */
  function MakePartitions(devPath: string, pcs: seq<PartitionCandidate>): (ps: seq<Partition>)
    ensures |ps| == |pcs|
  {
    if pcs == [] then []
    else MakePartitions(devPath, pcs[..|pcs| - 1]) + [MakePartition(devPath, pcs[|pcs| - 1])]
  }

  /** The device record built from a kept candidate. */
  function MakeDevice(c: Candidate): Device
    requires Keep(c)
  {
    var u := c.usb.value;
    var b := c.block.value;
    Device(b.node, u.manufacturer, u.product, u.serial, u.devPath, LabelOrEmpty(b.fsLabel), u.sysPath,
           u.speed, u.version, Atoi(u.maxChild), Atoi(u.busNum), SectorBytes(b.sectors),
           MakePartitions(u.devPath, c.partitions))
  }

  /** What `usb_device_list_get` returns: a device for each kept candidate, in enumeration
      order. */
  function Discovered(candidates: seq<Candidate>): seq<Device>
  {
    if candidates == [] then []
    else
      var c := candidates[|candidates| - 1];
      Discovered(candidates[..|candidates| - 1]) + (if Keep(c) then [MakeDevice(c)] else [])
  }

  // ---------------------------------------------------------------------------------------
  // Properties of the records

  /** The k-th partition record is built from the k-th enumerated partition. */
  lemma {:induction false} MakePartitionsAt(devPath: string, pcs: seq<PartitionCandidate>)
    ensures forall k :: 0 <= k < |pcs| ==> MakePartitions(devPath, pcs)[k] == MakePartition(devPath, pcs[k])
  {
    if pcs != [] {
      var init := pcs[..|pcs| - 1];
      MakePartitionsAt(devPath, init);
      assert forall k :: 0 <= k < |init| ==> init[k] == pcs[k];
    }
  }

  /** A partition's `dev_path` starts with its device's followed by a dash, and what follows
      is its number text. */
  lemma PartitionDevPathShape(devPath: string, pc: PartitionCandidate)
    ensures var p := MakePartition(devPath, pc);
      && devPath + "-" <= p.devPath
      && p.devPath[|devPath| + 1..] == pc.numText
  {
    var p := MakePartition(devPath, pc);
    assert p.devPath == (devPath + "-") + pc.numText;
    assert p.devPath[..|devPath| + 1] == devPath + "-";
  }

  /** Partitions of one device with different number texts get different `dev_path`s, and a
      partition's `dev_path` differs from its device's. */
  lemma PartitionDevPathsDistinct(devPath: string, t1: string, t2: string)
    ensures PartitionDevPath(devPath, t1) == PartitionDevPath(devPath, t2) <==> t1 == t2
    ensures PartitionDevPath(devPath, t1) != devPath
  {
    var n := |devPath| + 1;
    if PartitionDevPath(devPath, t1) == PartitionDevPath(devPath, t2) {
      assert PartitionDevPath(devPath, t1)[n..] == t1;
      assert PartitionDevPath(devPath, t2)[n..] == t2;
    }
    assert |PartitionDevPath(devPath, t1)| > |devPath|;
  }

  /** When the number text is what the kernel writes for a number — `%d` of it — the
      partition's number is that number. */
  lemma CanonicalPartitionNumber(devPath: string, pc: PartitionCandidate, n: int)
    requires pc.numText == IntString(n)
    ensures MakePartition(devPath, pc).num == n
  {
    AtoiIntString(n);
  }

  /** The sector count times 512 does not wrap for counts below 2^55, and the byte size is
      always a multiple of 512 even when it does. */
  lemma SectorBytesExact(sectors: string)
    ensures 0 <= Atoi(sectors) < 0x80_0000_0000_0000 ==> SectorBytes(sectors) == Atoi(sectors) * 512
    ensures SectorBytes(sectors) % 512 == 0
    ensures SectorBytes(sectors) < SizeModulus
  {
    var x := Atoi(sectors) * 512;
    WrapKeepsMultiple(Atoi(sectors), x / SizeModulus);
  }

  lemma WrapKeepsMultiple(s: int, q: int)
    ensures (s * 512 - SizeModulus * q) % 512 == 0
  {
    assert s * 512 - SizeModulus * q == 512 * (s - 0x80_0000_0000_0000 * q);
  }

  /** A stored label is the `ID_FS_LABEL` property when udev has one, and "" otherwise. */
  predicate StoredLabel(stored: string, property: Option<string>)
  {
    && (property.None? ==> stored == "")
    && (property.Some? ==> stored == property.value)
  }

  /** The partition record the source fills in from one enumerated partition of a device. */
  predicate PartitionBuiltFrom(p: Partition, devPath: string, pc: PartitionCandidate)
  {
    && p.node == pc.node
    && p.sysPath == pc.sysPath
    && p.num == Atoi(pc.numText)
    && p.devPath == PartitionDevPath(devPath, pc.numText)
    && p.size == SectorBytes(pc.sectors)
    && StoredLabel(p.fsLabel, pc.fsLabel)
  }

  /** A kept candidate's record takes its attributes from the lookups: the node, size and
      label from the block child, the strings and numbers from the usb parent (numbers read
      with `atoi`), the size as the sector count in bytes, the label defaulting to "", and its
      partitions are the enumerated ones in order, each built under the device's `dev_path`. */
  lemma MakeDeviceFields(c: Candidate)
    requires Keep(c)
    ensures var d := MakeDevice(c);
      var u := c.usb.value;
      var b := c.block.value;
      && d.node == b.node
      && d.manufacturer == u.manufacturer && d.product == u.product && d.serial == u.serial
      && d.devPath == u.devPath && d.sysPath == u.sysPath
      && d.speed == u.speed && d.version == u.version
      && StoredLabel(d.fsLabel, b.fsLabel)
      && d.maxChildren == Atoi(u.maxChild)
      && d.bus == Atoi(u.busNum)
      && d.size == SectorBytes(b.sectors)
      && |d.partitions| == |c.partitions|
      && forall k :: 0 <= k < |c.partitions| ==>
           PartitionBuiltFrom(d.partitions[k], d.devPath, c.partitions[k])
  {
    MakePartitionsAt(c.usb.value.devPath, c.partitions);
  }

  /** The list holds one device per kept candidate, in enumeration order: discovering two runs
      of candidates is discovering each, one after the other. */
  lemma {:induction false} DiscoveredConcat(a: seq<Candidate>, b: seq<Candidate>)
    ensures Discovered(a + b) == Discovered(a) + Discovered(b)
    decreases |b|
  {
    if b == [] {
      assert a + b == a;
    } else {
      var init := b[..|b| - 1];
      var c := b[|b| - 1];
      assert (a + b)[..|a + b| - 1] == a + init;
      assert (a + b)[|a + b| - 1] == c;
      DiscoveredConcat(a, init);
      Text.AppendAssoc(Discovered(a), Discovered(init), if Keep(c) then [MakeDevice(c)] else []);
    }
  }

  /** Exactly the kept candidates give devices: none are made up and none are dropped. */
  lemma {:induction false} DiscoveredFromKept(candidates: seq<Candidate>)
    ensures |Discovered(candidates)| <= |candidates|
    ensures forall d :: d in Discovered(candidates) <==>
      exists i :: 0 <= i < |candidates| && Keep(candidates[i]) && d == MakeDevice(candidates[i])
  {
    if candidates != [] {
      var init := candidates[..|candidates| - 1];
      DiscoveredFromKept(init);
      assert candidates == init + [candidates[|candidates| - 1]];
      assert forall i :: 0 <= i < |init| ==> init[i] == candidates[i];
    }
  }

  // ---------------------------------------------------------------------------------------
  // The loops of `usb_device_list_get`

  /** The partition loop: a partition record per enumerated partition, appended to a new
      partition list. */
  method BuildPartitions(devPath: string, pcs: seq<PartitionCandidate>) returns (list: List<Partition>)
    ensures list.Valid() && fresh(list.Repr)
    ensures list.contents == MakePartitions(devPath, pcs)
  {
    list := new List<Partition>();
    var j := 0;
    assert pcs[..0] == [];
    while j < |pcs|
      invariant 0 <= j <= |pcs|
      invariant list.Valid() && fresh(list.Repr)
      invariant list.contents == MakePartitions(devPath, pcs[..j])
    {
      var pc := pcs[j];
      var p := Partition(pc.node, Atoi(pc.numText), devPath + "-" + pc.numText, LabelOrEmpty(pc.fsLabel),
                         pc.sysPath, (Atoi(pc.sectors) * 512) % SizeModulus);
      list.Add(p);
      assert pcs[..j + 1][..j] == pcs[..j];
      j := j + 1;
    }
    assert pcs[..j] == pcs;
  }

  /** One kept candidate: the device record, with its partition list built and read back. */
  method BuildDevice(c: Candidate) returns (d: Device)
    requires Keep(c)
    ensures d == MakeDevice(c)
  {
    var u := c.usb.value;
    var b := c.block.value;
    var partitions := BuildPartitions(u.devPath, c.partitions);
    var items := partitions.Items();
    d := Device(b.node, u.manufacturer, u.product, u.serial, u.devPath, LabelOrEmpty(b.fsLabel), u.sysPath,
                u.speed, u.version, Atoi(u.maxChild), Atoi(u.busNum), (Atoi(b.sectors) * 512) % SizeModulus,
                items);
  }

  /** One pass of the candidate loop: a kept candidate's device is appended to the list. */
  method AddIfKept(c: Candidate, list: List<Device>)
    requires list.Valid()
    modifies list.Repr
    ensures list.Valid() && fresh(list.Repr - old(list.Repr))
    ensures list.contents == old(list.contents) + (if Keep(c) then [MakeDevice(c)] else [])
  {
    if c.usb.Some? && c.block.Some? && c.hasScsiDisk {
      var d := BuildDevice(c);
      list.Add(d);
    } else {
      assert list.contents + [] == list.contents;
    }
  }

  /** `usb_device_list_get`: walks the candidates and appends a device for each kept one to a
      new list. */
  method DeviceListGet(candidates: seq<Candidate>) returns (list: List<Device>)
    ensures list.Valid() && fresh(list.Repr)
    ensures list.contents == Discovered(candidates)
  {
    list := new List<Device>();
    var i := 0;
    assert candidates[..0] == [];
    while i < |candidates|
      invariant 0 <= i <= |candidates|
      invariant list.Valid() && fresh(list.Repr)
      invariant list.contents == Discovered(candidates[..i])
    {
      AddIfKept(candidates[i], list);
      assert candidates[..i + 1][..i] == candidates[..i];
      i := i + 1;
    }
    assert candidates[..i] == candidates;
  }
}
