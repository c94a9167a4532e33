/** The in-memory inventory of usb.c: `struct usb_device` records, each owning its
    `struct usb_partition` records, kept in the order they were discovered. */
module Inventory {
  import opened LinkedList

  /** `struct usb_partition` (`fsLabel` is its `label` field): `num` is the partition index
      and `devPath` the owning device's `devPath`, a dash, and that index's text. */
  datatype Partition = Partition(
    node: string,
    num: int,
    devPath: string,
    fsLabel: string,
    sysPath: string,
    size: nat)

  /** `struct usb_device` (`fsLabel` is its `label` field), with its partition list given by
      the items that list holds. */
  datatype Device = Device(
    node: string,
    manufacturer: string,
    product: string,
    serial: string,
    devPath: string,
    fsLabel: string,
    sysPath: string,
    speed: string,
    version: string,
    maxChildren: int,
    bus: int,
    size: nat,
    partitions: seq<Partition>)

  /** Devices plus all their partitions. */
  function Entries(devices: seq<Device>): nat
  {
    if devices == [] then 0
    else Entries(devices[..|devices| - 1]) + 1 + |devices[|devices| - 1].partitions|
  }

  lemma {:induction false} EntriesAppend(a: seq<Device>, b: seq<Device>)
    ensures Entries(a + b) == Entries(a) + Entries(b)
    decreases |b|
  {
    if b != [] {
      assert (a + b)[..|a + b| - 1] == a + b[..|b| - 1];
      assert (a + b)[|a + b| - 1] == b[|b| - 1];
      EntriesAppend(a, b[..|b| - 1]);
    } else {
      assert a + b == a;
    }
  }

  /** Every device counts once, and the count exceeds the number of devices exactly when
      some device has a partition. */
  lemma {:induction false} EntriesAtLeastDevices(devices: seq<Device>)
    ensures Entries(devices) >= |devices|
    ensures Entries(devices) == |devices| <==> forall i :: 0 <= i < |devices| ==> devices[i].partitions == []
  {
    if devices != [] {
      var init := devices[..|devices| - 1];
      EntriesAtLeastDevices(init);
      assert forall i :: 0 <= i < |init| ==> init[i] == devices[i];
    }
  }

  /** `usb_device_and_partition_list_size`: walks the device cells and, inside each device,
      its partitions, counting one for each. */
  method DeviceAndPartitionCount(list: List<Device>) returns (n: nat)
    requires list.Valid()
    ensures n == Entries(list.contents)
  {
    n := 0;
    var cell: Node?<Device> := list.head;
    ghost var k := 0;
    while cell != null && cell.item.Some?
      invariant k <= |list.nodes|
      invariant k < |list.nodes| ==> cell == list.nodes[k]
      invariant k == |list.nodes| ==> cell == null
      invariant list.contents == [] ==> k == 0
      invariant k <= |list.contents|
      invariant n == Entries(list.contents[..k])
      decreases |list.nodes| - k
    {
      n := n + 1;
      var partitions := cell.item.value.partitions;
      var j := 0;
      while j < |partitions|
        invariant j <= |partitions|
        invariant n == Entries(list.contents[..k]) + 1 + j
      {
        n := n + 1;
        j := j + 1;
      }
      assert list.contents[..k + 1][..k] == list.contents[..k];
      cell := cell.next;
      k := k + 1;
    }
    assert list.contents[..k] == list.contents;
  }
}
