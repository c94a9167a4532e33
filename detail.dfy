/** `usb_device_list_detail_str` (usb.c): the long listing. Each device is a block of eleven
    "LABEL:\tvalue" lines, followed by five indented lines for each of its partitions; blocks
    are separated by an empty line. */
module Detail {
  import opened Text
  import opened Numeric
  import opened SizeFormat
  import opened Inventory

  /** The device labels, each padded to 13 characters and ended by a tab. */
  const DeviceLabels: seq<string> := [
    "NODE:        \t", "BUS:         \t", "DEV_PATH:    \t", "SIZE:        \t",
    "LABEL:       \t", "MANUFACTURER:\t", "PRODUCT:     \t", "SERIAL:      \t",
    "SYS_PATH:    \t", "VERSION:     \t", "SPEED:       \t"]

  /** The partition labels: like the device ones, indented by four spaces (all but the first),
      and their values indented by four more. */
  const PartitionLabels: seq<string> := [
    "PARTITION:   \t    ", "    NODE:    \t    ", "    SIZE:    \t    ",
    "    LABEL:   \t    ", "    SYS_PATH:\t    "]

  /** The values of a device's lines, given the texts of its size and version. */
  function DeviceValues(d: Device, size: string, version: string): (v: seq<string>)
    ensures |v| == |DeviceLabels|
  {
    [d.node, IntString(d.bus), d.devPath, size, d.fsLabel, d.manufacturer, d.product,
     d.serial, d.sysPath, version, d.speed]
  }

  /** The values of a partition's lines, given the text of its size. */
  function PartitionValues(p: Partition, size: string): (v: seq<string>)
    ensures |v| == |PartitionLabels|
  {
    [IntString(p.num), p.node, size, p.fsLabel, p.sysPath]
  }

  /** Each label followed by its value. */
  function Labelled(labels: seq<string>, values: seq<string>): (lines: seq<string>)
    requires |labels| == |values|
    ensures |lines| == |labels|
  {
    seq(|labels|, i requires 0 <= i < |labels| => labels[i] + values[i])
  }

  /** A device's own lines: its size through `human_readable_size` and its version through
      `trim`. */
  function DeviceFields(d: Device, mode: int): seq<string>
  {
    Labelled(DeviceLabels, DeviceValues(d, FormatSize(d.size, mode), Trimmed(d.version)))
  }

  function PartitionFields(p: Partition, mode: int): seq<string>
  {
    Labelled(PartitionLabels, PartitionValues(p, FormatSize(p.size, mode)))
  }

  /** The text the partition loop appends for one partition, after its newline. */
  function PartitionDetail(p: Partition, mode: int): string
  {
    Join(PartitionFields(p, mode), "\n")
  }

  /** The partitions' texts, in list order. */
  function PartitionDetails(partitions: seq<Partition>, mode: int): (r: seq<string>)
    ensures |r| == |partitions|
  {
    if partitions == [] then []
    else PartitionDetails(partitions[..|partitions| - 1], mode) + [PartitionDetail(partitions[|partitions| - 1], mode)]
  }

  /** One device's block: its lines, then a newline and the lines of each partition. */
  function DeviceDetail(d: Device, mode: int): string
  {
    Join(DeviceFields(d, mode), "\n") + NewlinePrefixed(PartitionDetails(d.partitions, mode))
  }

  /** What `usb_device_list_detail_str` returns: the blocks with an empty line between each
      two. */
  function DetailText(devices: seq<Device>, mode: int): string
  {
    Join(Blocks(devices, mode), "\n\n")
  }

  /** The devices' blocks, in list order. */
  function Blocks(devices: seq<Device>, mode: int): (r: seq<string>)
    ensures |r| == |devices|
  {
    if devices == [] then []
    else Blocks(devices[..|devices| - 1], mode) + [DeviceDetail(devices[|devices| - 1], mode)]
  }

  /** All lines of a device's block, in order. */
  function BlockLines(d: Device, mode: int): (lines: seq<string>)
    ensures |lines| == 11 + 5 * |d.partitions|
  {
    DeviceFields(d, mode) + PartitionsFields(d.partitions, mode)
  }

  function PartitionsFields(partitions: seq<Partition>, mode: int): (lines: seq<string>)
    ensures |lines| == 5 * |partitions|
  {
    if partitions == [] then []
    else PartitionsFields(partitions[..|partitions| - 1], mode) + PartitionFields(partitions[|partitions| - 1], mode)
  }

  // ---------------------------------------------------------------------------------------
  // Properties of the listing

  /** An empty list gives the empty string. */
  lemma EmptyDetail(mode: int)
    ensures DetailText([], mode) == ""
  {
  }

  /** The listing of two non-empty runs of devices is the listing of each with one empty line
      between: no separator leads, none trails, and no block is touched by its neighbours. */
  lemma DetailConcat(a: seq<Device>, b: seq<Device>, mode: int)
    requires a != [] && b != []
    ensures DetailText(a + b, mode) == DetailText(a, mode) + "\n\n" + DetailText(b, mode)
  {
    BlocksConcat(a, b, mode);
    JoinConcat(Blocks(a, mode), Blocks(b, mode), "\n\n");
  }

  lemma {:induction false} BlocksConcat(a: seq<Device>, b: seq<Device>, mode: int)
    ensures Blocks(a + b, mode) == Blocks(a, mode) + Blocks(b, mode)
    decreases |b|
  {
    if b == [] {
      assert a + b == a;
    } else {
      var init := b[..|b| - 1];
      assert (a + b)[..|a + b| - 1] == a + init;
      assert (a + b)[|a + b| - 1] == b[|b| - 1];
      BlocksConcat(a, init, mode);
      AppendAssoc(Blocks(a, mode), Blocks(init, mode), [DeviceDetail(b[|b| - 1], mode)]);
    }
  }

  /** A single device's listing is its block. */
  lemma SingleDetail(d: Device, mode: int)
    ensures DetailText([d], mode) == DeviceDetail(d, mode)
  {
  }

  /** A device's block is its lines joined by newlines. */
  lemma DeviceDetailLines(d: Device, mode: int)
    ensures DeviceDetail(d, mode) == Join(BlockLines(d, mode), "\n")
  {
    BlockJoin(DeviceFields(d, mode), d.partitions, mode);
  }

  lemma {:induction false} BlockJoin(head: seq<string>, partitions: seq<Partition>, mode: int)
    requires head != []
    ensures Join(head, "\n") + NewlinePrefixed(PartitionDetails(partitions, mode))
         == Join(head + PartitionsFields(partitions, mode), "\n")
    decreases |partitions|
  {
    if partitions == [] {
      assert head + [] == head;
    } else {
      BlockJoin(head, partitions[..|partitions| - 1], mode);
      BlockJoinStep(head, partitions, mode);
    }
  }

  lemma BlockJoinStep(head: seq<string>, partitions: seq<Partition>, mode: int)
    requires head != [] && partitions != []
    requires var init := partitions[..|partitions| - 1];
      Join(head, "\n") + NewlinePrefixed(PartitionDetails(init, mode))
      == Join(head + PartitionsFields(init, mode), "\n")
    ensures Join(head, "\n") + NewlinePrefixed(PartitionDetails(partitions, mode))
         == Join(head + PartitionsFields(partitions, mode), "\n")
  {
    var n := |partitions|;
    var init := partitions[..n - 1];
    var fields := PartitionFields(partitions[n - 1], mode);
    var before := head + PartitionsFields(init, mode);
    PartitionDetailsStep(partitions, mode);
    JoinConcat(before, fields, "\n");
    assert PartitionsFields(partitions, mode) == PartitionsFields(init, mode) + fields;
    AppendAssoc(head, PartitionsFields(init, mode), fields);
    Regroup(Join(head, "\n"), NewlinePrefixed(PartitionDetails(init, mode)), Join(before, "\n"), Join(fields, "\n"));
  }

  lemma PartitionDetailsStep(partitions: seq<Partition>, mode: int)
    requires partitions != []
    ensures var n := |partitions|;
      NewlinePrefixed(PartitionDetails(partitions, mode))
      == NewlinePrefixed(PartitionDetails(partitions[..n - 1], mode)) + "\n" + PartitionDetail(partitions[n - 1], mode)
  {
    var n := |partitions|;
    var details := PartitionDetails(partitions, mode);
    assert details[..n - 1] == PartitionDetails(partitions[..n - 1], mode);
  }

  lemma Regroup(a: string, b: string, ab: string, c: string)
    requires a + b == ab
    ensures a + (b + "\n" + c) == ab + "\n" + c
  {
    AppendAssoc(a, b, "\n" + c);
    AppendAssoc(b, "\n", c);
    AppendAssoc(ab, "\n", c);
  }

  /** Each partition contributes five lines, in list order. */
  lemma {:induction false} PartitionsFieldsAt(partitions: seq<Partition>, mode: int)
    ensures forall j, f :: 0 <= j < |partitions| && 0 <= f < 5 ==>
      PartitionsFields(partitions, mode)[5 * j + f] == PartitionFields(partitions[j], mode)[f]
  {
    if partitions != [] {
      var n := |partitions|;
      var init := partitions[..n - 1];
      PartitionsFieldsAt(init, mode);
      forall j, f | 0 <= j < n && 0 <= f < 5
        ensures PartitionsFields(partitions, mode)[5 * j + f] == PartitionFields(partitions[j], mode)[f]
      {
        if j < n - 1 {
          assert partitions[j] == init[j];
        }
      }
    }
  }

  /** `line` is the label `name` followed by `value`: the value starts in the column after the
      label. */
  predicate FieldAt(line: string, name: string, value: string)
  {
    |line| >= |name| && line[..|name|] == name && line[|name|..] == value
  }

  /** Every device label is 14 characters ending in a tab, and every partition label 18
      characters with its tab in column 13, so the values of each kind line up. */
  lemma LabelWidths()
    ensures forall i :: 0 <= i < |DeviceLabels| ==> |DeviceLabels[i]| == 14 && DeviceLabels[i][13] == '\t'
    ensures forall f :: 0 <= f < |PartitionLabels| ==> |PartitionLabels[f]| == 18 && PartitionLabels[f][13] == '\t'
  {
  }

  /** The block has eleven device lines, then five per partition in list order, each its label
      followed by its value. */
  lemma BlockLayout(d: Device, mode: int)
    ensures var lines := BlockLines(d, mode);
      var values := DeviceValues(d, FormatSize(d.size, mode), Trimmed(d.version));
      && |lines| == 11 + 5 * |d.partitions|
      && (forall i :: 0 <= i < 11 ==> FieldAt(lines[i], DeviceLabels[i], values[i]))
      && (forall j, f :: 0 <= j < |d.partitions| && 0 <= f < 5 ==>
            FieldAt(lines[11 + 5 * j + f], PartitionLabels[f],
                    PartitionValues(d.partitions[j], FormatSize(d.partitions[j].size, mode))[f]))
  {
    var lines := BlockLines(d, mode);
    var values := DeviceValues(d, FormatSize(d.size, mode), Trimmed(d.version));
    var own := DeviceFields(d, mode);
    PartitionsFieldsAt(d.partitions, mode);
    forall i | 0 <= i < 11
      ensures FieldAt(lines[i], DeviceLabels[i], values[i])
    {
      assert lines[i] == own[i];
      LabelSplit(DeviceLabels[i], values[i]);
    }
    forall j, f | 0 <= j < |d.partitions| && 0 <= f < 5
      ensures FieldAt(lines[11 + 5 * j + f], PartitionLabels[f],
                      PartitionValues(d.partitions[j], FormatSize(d.partitions[j].size, mode))[f])
    {
      var p := d.partitions[j];
      assert lines[11 + 5 * j + f] == PartitionFields(p, mode)[f];
      LabelSplit(PartitionLabels[f], PartitionValues(p, FormatSize(p.size, mode))[f]);
    }
  }

  lemma LabelSplit(name: string, value: string)
    ensures (name + value)[..|name|] == name && (name + value)[|name|..] == value
  {
  }

  /** The BUS line reads back, through `atoi`, as the device's bus number, and the PARTITION
      line of each partition as its number. */
  lemma NumbersReadBack(d: Device, mode: int)
    ensures |BlockLines(d, mode)[1]| >= 14 && Atoi(BlockLines(d, mode)[1][14..]) == d.bus
    ensures forall j :: 0 <= j < |d.partitions| ==>
      |BlockLines(d, mode)[11 + 5 * j]| >= 18 && Atoi(BlockLines(d, mode)[11 + 5 * j][18..]) == d.partitions[j].num
  {
    var lines := BlockLines(d, mode);
    BlockLayout(d, mode);
    LabelWidths();
    assert FieldAt(lines[1], DeviceLabels[1], IntString(d.bus));
    AtoiIntString(d.bus);
    forall j | 0 <= j < |d.partitions|
      ensures |lines[11 + 5 * j]| >= 18 && Atoi(lines[11 + 5 * j][18..]) == d.partitions[j].num
    {
      var p := d.partitions[j];
      assert FieldAt(lines[11 + 5 * j + 0], PartitionLabels[0], PartitionValues(p, FormatSize(p.size, mode))[0]);
      AtoiIntString(p.num);
    }
  }

  /** The VERSION value is the stored version with no white space at either end. */
  lemma VersionTrimmed(d: Device, mode: int)
    ensures |BlockLines(d, mode)[9]| >= 14
    ensures var v := BlockLines(d, mode)[9][14..];
      && v == Trimmed(d.version)
      && (v != [] ==> !IsSpace(v[0]) && !IsSpace(v[|v| - 1]))
  {
    var lines := BlockLines(d, mode);
    BlockLayout(d, mode);
    LabelWidths();
    assert FieldAt(lines[9], DeviceLabels[9], DeviceValues(d, FormatSize(d.size, mode), Trimmed(d.version))[9]);
    TrimmedSlice(d.version);
  }

  lemma DetailStep(devices: seq<Device>, i: nat, mode: int)
    requires i < |devices|
    ensures DetailText(devices[..i + 1], mode)
         == (if i == 0 then "" else DetailText(devices[..i], mode) + "\n\n") + DeviceDetail(devices[i], mode)
  {
    var pre := devices[..i + 1];
    assert pre[..i] == devices[..i];
    var blocks := Blocks(pre, mode);
    assert blocks[..i] == Blocks(devices[..i], mode);
    if i == 0 {
      assert blocks == [DeviceDetail(devices[0], mode)];
    }
  }

  // ---------------------------------------------------------------------------------------
  // The loops of `usb_device_list_detail_str`

  /** The first `asprintf` of a device: its eleven lines, with `human_readable_size` and
      `trim` applied. */
  method DeviceFieldsText(d: Device, mode: int) returns (s: string)
    ensures s == Join(DeviceFields(d, mode), "\n")
  {
    var size := HumanReadableSize(d.size, mode);
    var version := Trim(d.version);
    s := Join(Labelled(DeviceLabels, DeviceValues(d, size, version)), "\n");
  }

  /** The partition loop: a newline and five lines per partition. */
  method PartitionsDetailText(partitions: seq<Partition>, mode: int) returns (s: string)
    ensures s == NewlinePrefixed(PartitionDetails(partitions, mode))
  {
    s := "";
    assert partitions[..0] == [];
    var j := 0;
    while j < |partitions|
      invariant 0 <= j <= |partitions|
      invariant s == NewlinePrefixed(PartitionDetails(partitions[..j], mode))
    {
      var p := partitions[j];
      var size := HumanReadableSize(p.size, mode);
      PartitionDetailsStep(partitions[..j + 1], mode);
      assert partitions[..j + 1][..j] == partitions[..j];
      s := s + "\n" + Join(Labelled(PartitionLabels, PartitionValues(p, size)), "\n");
      j := j + 1;
    }
    assert partitions[..j] == partitions;
  }

  /** `usb_device_list_detail_str`: for each device, its block, then the empty-line separator
      when another cell follows. */
  method DetailString(devices: seq<Device>, mode: int) returns (s: string)
    ensures s == DetailText(devices, mode)
  {
    s := "";
    var i := 0;
    while i < |devices|
      invariant 0 <= i <= |devices|
      invariant i == 0 ==> s == ""
      invariant 0 < i < |devices| ==> s == DetailText(devices[..i], mode) + "\n\n"
      invariant i == |devices| > 0 ==> s == DetailText(devices[..i], mode)
    {
      var own := DeviceFieldsText(devices[i], mode);
      var parts := PartitionsDetailText(devices[i].partitions, mode);
      DetailStep(devices, i, mode);
      AppendAssoc(s, own, parts);
      s := s + (own + parts);
      if i + 1 < |devices| {
        s := s + "\n\n";
      }
      i := i + 1;
    }
    if i == 0 {
      assert devices == [];
    } else {
      assert devices[..i] == devices;
    }
  }
}
