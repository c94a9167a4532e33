/** The aligned table of `usb_device_list_table_str` (usb.c) and the column widths it is laid
    out with (the `usb_device_list_table_max_width_*` functions). */
module Table {
  import opened SizeFormat
  import opened LinkedList
  import opened Inventory
  import opened Text

  datatype Column = NodeColumn | DevPathColumn | SizeColumn | LabelColumn | ManufacturerColumn | ProductColumn

  /** The columns in table order. */
  const Columns: seq<Column> := [NodeColumn, DevPathColumn, SizeColumn, LabelColumn, ManufacturerColumn, ProductColumn]

  /** The connector in front of each of the first four cells of a partition row that has a later
      sibling, and of the last partition row of a device. */
  const Branch: string := " ├─ "
  const LastBranch: string := " ╰─ "

  function Header(c: Column): string
  {
    match c
    case NodeColumn => "NODE"
    case DevPathColumn => "DEV_PATH"
    case SizeColumn => "SIZE"
    case LabelColumn => "LABEL"
    case ManufacturerColumn => "MANUFACTURER"
    case ProductColumn => "PRODUCT"
  }

  /** The columns whose partition cells carry a connector and are counted in the width. */
  predicate HasPartitionCells(c: Column)
  {
    c.NodeColumn? || c.DevPathColumn? || c.SizeColumn? || c.LabelColumn?
  }

  /** What a device row shows in column `c`. */
  function DeviceCell(d: Device, c: Column, mode: int): string
  {
    match c
    case NodeColumn => d.node
    case DevPathColumn => d.devPath
    case SizeColumn => FormatSize(d.size, mode)
    case LabelColumn => d.fsLabel
    case ManufacturerColumn => d.manufacturer
    case ProductColumn => d.product
  }

  /** What a partition row shows in column `c`: the manufacturer and product cells are empty. */
  function PartitionCell(p: Partition, c: Column, mode: int): string
  {
    match c
    case NodeColumn => p.node
    case DevPathColumn => p.devPath
    case SizeColumn => FormatSize(p.size, mode)
    case LabelColumn => p.fsLabel
    case ManufacturerColumn => ""
    case ProductColumn => ""
  }

  function Max(a: nat, b: nat): nat
  {
    if a < b then b else a
  }

  // ---------------------------------------------------------------------------------------
  // Column widths

  /** The widest partition cell of column `c` plus four for the connector (0 without partitions). */
  function PartitionsWidth(partitions: seq<Partition>, c: Column, mode: int): nat
  {
    if partitions == [] then 0
    else
      var last := partitions[|partitions| - 1];
      Max(PartitionsWidth(partitions[..|partitions| - 1], c, mode), |PartitionCell(last, c, mode)| + 4)
  }

  /** The width one device and its partitions ask of column `c`. */
  function DeviceWidth(d: Device, c: Column, mode: int): nat
  {
    Max(|DeviceCell(d, c, mode)|, if HasPartitionCells(c) then PartitionsWidth(d.partitions, c, mode) else 0)
  }

  /** The width of column `c`: the header's length, widened by every device that needs more. */
  function ColumnWidth(devices: seq<Device>, c: Column, mode: int): nat
  {
    if devices == [] then |Header(c)|
    else Max(ColumnWidth(devices[..|devices| - 1], c, mode), DeviceWidth(devices[|devices| - 1], c, mode))
  }

  /** Some cell of the column (the header, a device cell, or a partition cell with its
      connector in the columns that have one) is exactly `w` wide. */
  ghost predicate Attained(devices: seq<Device>, c: Column, mode: int, w: nat)
  {
    || w == |Header(c)|
    || (exists i :: 0 <= i < |devices| && w == |DeviceCell(devices[i], c, mode)|)
    || (HasPartitionCells(c) &&
        exists i, j :: 0 <= i < |devices| && 0 <= j < |devices[i].partitions| &&
          w == |PartitionCell(devices[i].partitions[j], c, mode)| + 4)
  }

  lemma {:induction false} PartitionsWidthBounds(partitions: seq<Partition>, c: Column, mode: int)
    ensures forall j :: 0 <= j < |partitions| ==>
      |PartitionCell(partitions[j], c, mode)| + 4 <= PartitionsWidth(partitions, c, mode)
  {
    if partitions != [] {
      var n := |partitions| - 1;
      var init := partitions[..n];
      var w := PartitionsWidth(partitions, c, mode);
      PartitionsWidthBounds(init, c, mode);
      assert w == Max(PartitionsWidth(init, c, mode), |PartitionCell(partitions[n], c, mode)| + 4);
      forall j | 0 <= j < |partitions|
        ensures |PartitionCell(partitions[j], c, mode)| + 4 <= w
      {
        if j < n {
          assert partitions[j] == init[j];
        }
      }
    }
  }

  lemma {:induction false} PartitionsWidthAttained(partitions: seq<Partition>, c: Column, mode: int)
    requires partitions != []
    ensures exists j :: 0 <= j < |partitions| &&
                        PartitionsWidth(partitions, c, mode) == |PartitionCell(partitions[j], c, mode)| + 4
  {
    var n := |partitions| - 1;
    var init := partitions[..n];
    var w := PartitionsWidth(partitions, c, mode);
    if w == |PartitionCell(partitions[n], c, mode)| + 4 {
    } else {
      assert init != [] && w == PartitionsWidth(init, c, mode);
      PartitionsWidthAttained(init, c, mode);
      var j :| 0 <= j < |init| && w == |PartitionCell(init[j], c, mode)| + 4;
      assert partitions[j] == init[j];
    }
  }

  lemma PartitionsWidthStep(partitions: seq<Partition>, j: nat, c: Column, mode: int)
    requires j < |partitions|
    ensures PartitionsWidth(partitions[..j + 1], c, mode)
         == Max(PartitionsWidth(partitions[..j], c, mode), |PartitionCell(partitions[j], c, mode)| + 4)
  {
    assert partitions[..j + 1][..j] == partitions[..j];
  }

  lemma ColumnWidthStep(devices: seq<Device>, i: nat, c: Column, mode: int)
    requires i < |devices|
    ensures ColumnWidth(devices[..i + 1], c, mode)
         == Max(ColumnWidth(devices[..i], c, mode), DeviceWidth(devices[i], c, mode))
  {
    assert devices[..i + 1][..i] == devices[..i];
  }

  /** Every column is at least as wide as its header, and every header is at least four long,
      so the `width - 4` of the partition rows never underflows. */
  lemma {:induction false} ColumnWidthAtLeastHeader(devices: seq<Device>, c: Column, mode: int)
    ensures ColumnWidth(devices, c, mode) >= |Header(c)| >= 4
  {
    if devices != [] {
      ColumnWidthAtLeastHeader(devices[..|devices| - 1], c, mode);
    }
  }

  /** No device cell is wider than its column. */
  lemma {:induction false} DeviceCellsFit(devices: seq<Device>, c: Column, mode: int)
    ensures forall i :: 0 <= i < |devices| ==> |DeviceCell(devices[i], c, mode)| <= ColumnWidth(devices, c, mode)
  {
    if devices != [] {
      var n := |devices| - 1;
      var init := devices[..n];
      var w := ColumnWidth(devices, c, mode);
      DeviceCellsFit(init, c, mode);
      assert ColumnWidth(init, c, mode) <= w && |DeviceCell(devices[n], c, mode)| <= w;
      forall i | 0 <= i < n
        ensures |DeviceCell(devices[i], c, mode)| <= w
      {
        assert devices[i] == init[i];
      }
    }
  }

  /** In the NODE, DEV_PATH, SIZE and LABEL columns no partition cell with its four-character
      connector is wider than the column. */
  lemma {:induction false} PartitionCellsFit(devices: seq<Device>, c: Column, mode: int)
    requires HasPartitionCells(c)
    ensures forall i, j :: 0 <= i < |devices| && 0 <= j < |devices[i].partitions| ==>
      |PartitionCell(devices[i].partitions[j], c, mode)| + 4 <= ColumnWidth(devices, c, mode)
  {
    if devices != [] {
      var n := |devices| - 1;
      var init := devices[..n];
      var w := ColumnWidth(devices, c, mode);
      PartitionCellsFit(init, c, mode);
      PartitionsWidthBounds(devices[n].partitions, c, mode);
      assert ColumnWidth(init, c, mode) <= w && PartitionsWidth(devices[n].partitions, c, mode) <= w;
      forall i, j | 0 <= i < |devices| && 0 <= j < |devices[i].partitions|
        ensures |PartitionCell(devices[i].partitions[j], c, mode)| + 4 <= w
      {
        if i < n {
          assert devices[i] == init[i];
        }
      }
    }
  }

  /** The width is no wider than needed: the header or some cell reaches it. MANUFACTURER and
      PRODUCT look at device cells only. */
  lemma {:induction false} ColumnWidthAttained(devices: seq<Device>, c: Column, mode: int)
    ensures Attained(devices, c, mode, ColumnWidth(devices, c, mode))
  {
    if devices != [] {
      var init := devices[..|devices| - 1];
      var d := devices[|devices| - 1];
      var w := ColumnWidth(devices, c, mode);
      if w == ColumnWidth(init, c, mode) {
        ColumnWidthAttained(init, c, mode);
        AttainedExtends(init, devices, c, mode, w);
      } else if w == |DeviceCell(d, c, mode)| {
        assert devices[|devices| - 1] == d;
      } else {
        assert HasPartitionCells(c) && w == PartitionsWidth(d.partitions, c, mode) && d.partitions != [];
        PartitionsWidthAttained(d.partitions, c, mode);
        var j :| 0 <= j < |d.partitions| && w == |PartitionCell(d.partitions[j], c, mode)| + 4;
        assert devices[|devices| - 1].partitions[j] == d.partitions[j];
      }
    }
  }

  lemma AttainedExtends(init: seq<Device>, devices: seq<Device>, c: Column, mode: int, w: nat)
    requires init <= devices && Attained(init, c, mode, w)
    ensures Attained(devices, c, mode, w)
  {
    if w != |Header(c)| {
      if exists i :: 0 <= i < |init| && w == |DeviceCell(init[i], c, mode)| {
        var i :| 0 <= i < |init| && w == |DeviceCell(init[i], c, mode)|;
        assert devices[i] == init[i];
      } else {
        var i, j :| 0 <= i < |init| && 0 <= j < |init[i].partitions| &&
          w == |PartitionCell(init[i].partitions[j], c, mode)| + 4;
        assert devices[i] == init[i];
      }
    }
  }

  /** The text of one cell as the loops compute it, calling `human_readable_size` for SIZE. */
  method DeviceCellText(d: Device, c: Column, mode: int) returns (s: string)
    ensures s == DeviceCell(d, c, mode)
  {
    match c
    case NodeColumn => s := d.node;
    case DevPathColumn => s := d.devPath;
    case SizeColumn => s := HumanReadableSize(d.size, mode);
    case LabelColumn => s := d.fsLabel;
    case ManufacturerColumn => s := d.manufacturer;
    case ProductColumn => s := d.product;
  }

  method PartitionCellText(p: Partition, c: Column, mode: int) returns (s: string)
    ensures s == PartitionCell(p, c, mode)
  {
    match c
    case NodeColumn => s := p.node;
    case DevPathColumn => s := p.devPath;
    case SizeColumn => s := HumanReadableSize(p.size, mode);
    case LabelColumn => s := p.fsLabel;
    case ManufacturerColumn => s := "";
    case ProductColumn => s := "";
  }

  /** The six `usb_device_list_table_max_width_*` functions, one per column: start from the
      header's length and keep the running maximum over every device cell and, for the four
      columns that have them, every partition cell plus four. */
  method MaxWidth(devices: seq<Device>, c: Column, mode: int) returns (max: nat)
    ensures max == ColumnWidth(devices, c, mode)
  {
    max := |Header(c)|;
    var i := 0;
    assert devices[..0] == [];
    while i < |devices|
      invariant 0 <= i <= |devices|
      invariant max == ColumnWidth(devices[..i], c, mode)
    {
      max := DeviceMaxWidth(devices[i], c, mode, max);
      ColumnWidthStep(devices, i, c, mode);
      i := i + 1;
    }
    assert devices[..|devices|] == devices;
  }

  /** One pass of the device loop of the width functions: widens `max` to fit the device's
      cell and, in the columns that have them, its partition cells. */
  method DeviceMaxWidth(d: Device, c: Column, mode: int, max: nat) returns (m: nat)
    ensures m == Max(max, DeviceWidth(d, c, mode))
  {
    m := max;
    var cell := DeviceCellText(d, c, mode);
    var size := |cell|;
    if size > m {
      m := size;
    }
    if HasPartitionCells(c) {
      m := PartitionsMaxWidth(d.partitions, c, mode, m);
    }
  }

  /** The inner loop of the width functions: widens `max` to fit every partition cell of one
      device plus its connector. */
  method PartitionsMaxWidth(partitions: seq<Partition>, c: Column, mode: int, max: nat) returns (m: nat)
    ensures m == Max(max, PartitionsWidth(partitions, c, mode))
  {
    m := max;
    var j := 0;
    assert partitions[..0] == [];
    while j < |partitions|
      invariant 0 <= j <= |partitions|
      invariant m == Max(max, PartitionsWidth(partitions[..j], c, mode))
    {
      var partCell := PartitionCellText(partitions[j], c, mode);
      var size := |partCell| + 4;
      if size > m {
        m := size;
      }
      PartitionsWidthStep(partitions, j, c, mode);
      j := j + 1;
    }
    assert partitions[..|partitions|] == partitions;
  }

  // ---------------------------------------------------------------------------------------
  // Rows

  datatype Widths = Widths(node: nat, devPath: nat, size: nat, fsLabel: nat, manufacturer: nat, product: nat)
  {
    function At(c: Column): nat
    {
      match c
      case NodeColumn => node
      case DevPathColumn => devPath
      case SizeColumn => size
      case LabelColumn => fsLabel
      case ManufacturerColumn => manufacturer
      case ProductColumn => product
    }

    /** Wide enough for the `- 4` of the partition rows. */
    predicate Valid()
    {
      node >= 4 && devPath >= 4 && size >= 4 && fsLabel >= 4
    }
  }

  /** The widths `usb_device_list_table_str` computes, one per column. */
  function TableWidths(devices: seq<Device>, mode: int): (w: Widths)
    ensures w.Valid()
  {
    ColumnWidthAtLeastHeader(devices, NodeColumn, mode);
    ColumnWidthAtLeastHeader(devices, DevPathColumn, mode);
    ColumnWidthAtLeastHeader(devices, SizeColumn, mode);
    ColumnWidthAtLeastHeader(devices, LabelColumn, mode);
    Widths(ColumnWidth(devices, NodeColumn, mode), ColumnWidth(devices, DevPathColumn, mode),
           ColumnWidth(devices, SizeColumn, mode), ColumnWidth(devices, LabelColumn, mode),
           ColumnWidth(devices, ManufacturerColumn, mode), ColumnWidth(devices, ProductColumn, mode))
  }

  function Spaces(n: nat): (s: string)
    ensures |s| == n
  {
    seq(n, _ => ' ')
  }

  /** `%-<n>s`: `s` left-justified in a field of `n`, never cut. */
  function Pad(s: string, n: nat): string
  {
    if |s| < n then s + Spaces(n - |s|) else s
  }

  /** The cells `table_fmt_str` lays out: each text padded to its column's width. */
  function DeviceCells(w: Widths, texts: seq<string>): seq<string>
    requires |texts| == |Columns|
  {
    [Pad(texts[0], w.node), Pad(texts[1], w.devPath), Pad(texts[2], w.size),
     Pad(texts[3], w.fsLabel), Pad(texts[4], w.manufacturer), Pad(texts[5], w.product)]
  }

  /** The cells `table_partition_fmt_str` and `table_last_partition_fmt_str` lay out: the
      connector and the text padded to four less than the width in the first four columns,
      the padded text in the last two. */
  function PartitionCells(w: Widths, connector: string, texts: seq<string>): seq<string>
    requires w.Valid() && |texts| == |Columns|
  {
    [connector + Pad(texts[0], w.node - 4), connector + Pad(texts[1], w.devPath - 4),
     connector + Pad(texts[2], w.size - 4), connector + Pad(texts[3], w.fsLabel - 4),
     Pad(texts[4], w.manufacturer), Pad(texts[5], w.product)]
  }

  /** The texts of a device row, column by column. */
  function DeviceTexts(d: Device, mode: int): (t: seq<string>)
    ensures |t| == |Columns|
    ensures forall i :: 0 <= i < |Columns| ==> t[i] == DeviceCell(d, Columns[i], mode)
  {
    [d.node, d.devPath, FormatSize(d.size, mode), d.fsLabel, d.manufacturer, d.product]
  }

  /** The texts of a partition row, column by column. */
  function PartitionTexts(p: Partition, mode: int): (t: seq<string>)
    ensures |t| == |Columns|
    ensures forall i :: 0 <= i < |Columns| ==> t[i] == PartitionCell(p, Columns[i], mode)
  {
    [p.node, p.devPath, FormatSize(p.size, mode), p.fsLabel, "", ""]
  }

  function HeaderTexts(): (t: seq<string>)
    ensures |t| == |Columns|
    ensures forall i :: 0 <= i < |Columns| ==> t[i] == Header(Columns[i])
  {
    ["NODE", "DEV_PATH", "SIZE", "LABEL", "MANUFACTURER", "PRODUCT"]
  }

  function HeaderRow(w: Widths): string
  {
    Join(DeviceCells(w, HeaderTexts()), "\t")
  }

  function DeviceRow(d: Device, w: Widths, mode: int): string
  {
    Join(DeviceCells(w, DeviceTexts(d, mode)), "\t")
  }

  /** Partition rows: the last one of a device uses the closing connector. */
  function PartitionRow(p: Partition, w: Widths, mode: int, last: bool): string
    requires w.Valid()
  {
    Join(PartitionCells(w, if last then LastBranch else Branch, PartitionTexts(p, mode)), "\t")
  }

  // ---------------------------------------------------------------------------------------
  // The table

  /** What a line below the header shows: a device, or a partition and whether it is the last
      of its device's partitions. */
  datatype Line = DeviceLine(device: Device) | PartitionLine(partition: Partition, last: bool)

  function PartitionLinesOf(partitions: seq<Partition>): seq<Line>
  {
    seq(|partitions|, j requires 0 <= j < |partitions| => PartitionLine(partitions[j], j == |partitions| - 1))
  }

  /** A device's line followed by the lines of its partitions, in list order. */
  function DeviceLinesOf(d: Device): seq<Line>
  {
    [DeviceLine(d)] + PartitionLinesOf(d.partitions)
  }

  /** The lines below the header, device by device. */
  function Layout(devices: seq<Device>): seq<Line>
  {
    if devices == [] then []
    else Layout(devices[..|devices| - 1]) + DeviceLinesOf(devices[|devices| - 1])
  }

  function Render(line: Line, w: Widths, mode: int): string
    requires w.Valid()
  {
    match line
    case DeviceLine(d) => DeviceRow(d, w, mode)
    case PartitionLine(p, last) => PartitionRow(p, w, mode, last)
  }

  /** The lines rendered, in order. */
  function Rendered(lines: seq<Line>, w: Widths, mode: int): (r: seq<string>)
    requires w.Valid()
    ensures |r| == |lines|
  {
    seq(|lines|, i requires 0 <= i < |lines| => Render(lines[i], w, mode))
  }

  /** What `usb_device_list_table_str` returns. */
  function TableText(devices: seq<Device>, mode: int): string
  {
    var w := TableWidths(devices, mode);
    HeaderRow(w) + NewlinePrefixed(Rendered(Layout(devices), w, mode))
  }

  // ---------------------------------------------------------------------------------------
  // Properties of the table

  /** Below the header there is one line per device and one per partition. */
  lemma {:induction false} LayoutCount(devices: seq<Device>)
    ensures |Layout(devices)| == Entries(devices)
  {
    if devices != [] {
      LayoutCount(devices[..|devices| - 1]);
    }
  }

  /** Device `k`'s line comes right after the lines of the devices (and their partitions)
      before it, and its partitions' lines follow it in order, only the last of them marked last. */
  lemma {:induction false} LayoutPlacement(devices: seq<Device>, k: nat)
    requires k < |devices|
    ensures var off := Entries(devices[..k]);
      var ps := devices[k].partitions;
      && off + 1 + |ps| <= |Layout(devices)|
      && Layout(devices)[off] == DeviceLine(devices[k])
      && forall j :: 0 <= j < |ps| ==> Layout(devices)[off + 1 + j] == PartitionLine(ps[j], j == |ps| - 1)
  {
    var n := |devices| - 1;
    var init := devices[..n];
    var all := Layout(devices);
    var before := Layout(init);
    assert all == before + DeviceLinesOf(devices[n]);
    var off := Entries(devices[..k]);
    var ps := devices[k].partitions;
    if k < n {
      LayoutPlacement(init, k);
      assert init[..k] == devices[..k] && init[k] == devices[k];
      assert off + 1 + |ps| <= |before|;
      assert all[off] == before[off];
      forall j | 0 <= j < |ps|
        ensures all[off + 1 + j] == PartitionLine(ps[j], j == |ps| - 1)
      {
        assert all[off + 1 + j] == before[off + 1 + j];
      }
    } else {
      LayoutCount(init);
      assert devices[..k] == init;
      assert off == |before|;
      forall j | 0 <= j < |ps|
        ensures all[off + 1 + j] == PartitionLine(ps[j], j == |ps| - 1)
      {
        assert all[off + 1 + j] == PartitionLinesOf(ps)[j];
      }
    }
  }

  /** Each line of the layout shows one of the devices or one of their partitions. */
  lemma {:induction false} LayoutFrom(devices: seq<Device>, x: nat)
    requires x < |Layout(devices)|
    ensures match Layout(devices)[x]
      case DeviceLine(d) => d in devices
      case PartitionLine(p, _) => exists k :: 0 <= k < |devices| && p in devices[k].partitions
  {
    var n := |devices| - 1;
    var init := devices[..n];
    var tail := DeviceLinesOf(devices[n]);
    assert Layout(devices) == Layout(init) + tail;
    if x < |Layout(init)| {
      LayoutFrom(init, x);
      assert forall k :: 0 <= k < |init| ==> init[k] == devices[k];
    } else {
      var y := x - |Layout(init)|;
      assert Layout(devices)[x] == tail[y];
      if y > 0 {
        assert tail[y] == PartitionLine(devices[n].partitions[y - 1], y - 1 == |devices[n].partitions| - 1);
      }
    }
  }

  /** A partition row starts with the closing connector when it is its device's last, and with
      the other connector otherwise. */
  lemma PartitionRowConnector(p: Partition, w: Widths, mode: int, last: bool)
    requires w.Valid()
    ensures (if last then LastBranch else Branch) <= PartitionRow(p, w, mode, last)
    ensures Branch != LastBranch && |Branch| == |LastBranch| == 4
  {
    var connector := if last then LastBranch else Branch;
    var cells := PartitionCells(w, connector, PartitionTexts(p, mode));
    Text.JoinStartsWith(cells, "\t");
    assert Branch[1] != LastBranch[1];
  }

  lemma PadLength(s: string, n: nat)
    requires |s| <= n
    ensures |Pad(s, n)| == n && Pad(s, n)[..|s|] == s
  {
  }

  /** Texts no wider than their columns fill them exactly once padded. */
  lemma DeviceCellsAligned(w: Widths, texts: seq<string>)
    requires |texts| == |Columns|
    requires forall i :: 0 <= i < |Columns| ==> |texts[i]| <= w.At(Columns[i])
    ensures forall i :: 0 <= i < |Columns| ==> |DeviceCells(w, texts)[i]| == w.At(Columns[i])
  {
    forall i | 0 <= i < |Columns|
      ensures |DeviceCells(w, texts)[i]| == w.At(Columns[i])
    {
      PadLength(texts[i], w.At(Columns[i]));
    }
  }

  /** Partition texts that leave room for the four-character connector where there is one fill
      their columns exactly once padded. */
  lemma PartitionCellsAligned(w: Widths, connector: string, texts: seq<string>)
    requires w.Valid() && |connector| == 4 && |texts| == |Columns|
    requires forall i :: 0 <= i < |Columns| ==>
      |texts[i]| + (if HasPartitionCells(Columns[i]) then 4 else 0) <= w.At(Columns[i])
    ensures forall i :: 0 <= i < |Columns| ==> |PartitionCells(w, connector, texts)[i]| == w.At(Columns[i])
  {
    forall i | 0 <= i < |Columns|
      ensures |PartitionCells(w, connector, texts)[i]| == w.At(Columns[i])
    {
      if HasPartitionCells(Columns[i]) {
        PadLength(texts[i], w.At(Columns[i]) - 4);
      } else {
        PadLength(texts[i], w.At(Columns[i]));
      }
    }
  }

  lemma TableWidthsAt(devices: seq<Device>, mode: int, c: Column)
    ensures TableWidths(devices, mode).At(c) == ColumnWidth(devices, c, mode)
  {
  }

  /** Every header cell is exactly its column's width. */
  lemma HeaderAligned(devices: seq<Device>, mode: int)
    ensures var w := TableWidths(devices, mode);
      forall i :: 0 <= i < |Columns| ==> |DeviceCells(w, HeaderTexts())[i]| == w.At(Columns[i])
  {
    var w := TableWidths(devices, mode);
    var texts := HeaderTexts();
    forall i | 0 <= i < |Columns|
      ensures |texts[i]| <= w.At(Columns[i])
    {
      TableWidthsAt(devices, mode, Columns[i]);
      ColumnWidthAtLeastHeader(devices, Columns[i], mode);
    }
    DeviceCellsAligned(w, texts);
  }

  /** Every cell of a device row is exactly its column's width, so the tab-separated columns
      line up. */
  lemma DeviceRowAligned(devices: seq<Device>, mode: int, k: nat)
    requires k < |devices|
    ensures var w := TableWidths(devices, mode);
      forall i :: 0 <= i < |Columns| ==>
        |DeviceCells(w, DeviceTexts(devices[k], mode))[i]| == w.At(Columns[i])
  {
    var w := TableWidths(devices, mode);
    var texts := DeviceTexts(devices[k], mode);
    forall i | 0 <= i < |Columns|
      ensures |texts[i]| <= w.At(Columns[i])
    {
      TableWidthsAt(devices, mode, Columns[i]);
      DeviceCellsFit(devices, Columns[i], mode);
    }
    DeviceCellsAligned(w, texts);
  }

  /** Every cell of a partition row, connector included, is exactly its column's width,
      whichever connector the row uses. */
  lemma PartitionRowAligned(devices: seq<Device>, mode: int, k: nat, j: nat, last: bool)
    requires k < |devices| && j < |devices[k].partitions|
    ensures var w := TableWidths(devices, mode);
      var connector := if last then LastBranch else Branch;
      forall i :: 0 <= i < |Columns| ==>
        |PartitionCells(w, connector, PartitionTexts(devices[k].partitions[j], mode))[i]| == w.At(Columns[i])
  {
    var w := TableWidths(devices, mode);
    var connector := if last then LastBranch else Branch;
    var texts := PartitionTexts(devices[k].partitions[j], mode);
    forall i | 0 <= i < |Columns|
      ensures |texts[i]| + (if HasPartitionCells(Columns[i]) then 4 else 0) <= w.At(Columns[i])
    {
      var c := Columns[i];
      TableWidthsAt(devices, mode, c);
      ColumnWidthAtLeastHeader(devices, c, mode);
      if HasPartitionCells(c) {
        PartitionCellsFit(devices, c, mode);
      }
    }
    PartitionCellsAligned(w, connector, texts);
  }

  /** With no devices the table is the header row alone: the six headers, unpadded,
      separated by tabs. */
  lemma EmptyTable(mode: int)
    ensures TableText([], mode) == Join(HeaderTexts(), "\t")
  {
    var w := TableWidths([], mode);
    assert w == Widths(4, 8, 4, 5, 12, 7);
    var texts := HeaderTexts();
    assert DeviceCells(w, texts) == texts;
    assert Layout([]) == [] && Rendered([], w, mode) == [];
  }

  // ---------------------------------------------------------------------------------------
  // Building the text

  lemma LayoutStep(devices: seq<Device>, i: nat)
    requires i < |devices|
    ensures Layout(devices[..i + 1]) == Layout(devices[..i]) + DeviceLinesOf(devices[i])
  {
    assert devices[..i + 1][..i] == devices[..i];
  }

  lemma RenderedConcat(a: seq<Line>, b: seq<Line>, w: Widths, mode: int)
    requires w.Valid()
    ensures Rendered(a + b, w, mode) == Rendered(a, w, mode) + Rendered(b, w, mode)
  {
  }

  /** A device's row, with its size cell from `human_readable_size`. */
  method DeviceRowText(d: Device, w: Widths, mode: int) returns (s: string)
    ensures s == DeviceRow(d, w, mode)
  {
    var size := HumanReadableSize(d.size, mode);
    s := Join(DeviceCells(w, [d.node, d.devPath, size, d.fsLabel, d.manufacturer, d.product]), "\t");
  }

  /** A partition's row: `table_last_partition_fmt_str` for the last one, `table_partition_fmt_str`
      for the others. */
  method PartitionRowText(p: Partition, w: Widths, mode: int, last: bool) returns (s: string)
    requires w.Valid()
    ensures s == PartitionRow(p, w, mode, last)
  {
    var size := HumanReadableSize(p.size, mode);
    var texts := [p.node, p.devPath, size, p.fsLabel, "", ""];
    if last {
      s := Join(PartitionCells(w, LastBranch, texts), "\t");
    } else {
      s := Join(PartitionCells(w, Branch, texts), "\t");
    }
  }

  /** The six width calls of `usb_device_list_table_str`. */
  method ComputeWidths(devices: seq<Device>, mode: int) returns (w: Widths)
    ensures w == TableWidths(devices, mode)
  {
    var widthNode := MaxWidth(devices, NodeColumn, mode);
    var widthSize := MaxWidth(devices, SizeColumn, mode);
    var widthManufacturer := MaxWidth(devices, ManufacturerColumn, mode);
    var widthProduct := MaxWidth(devices, ProductColumn, mode);
    var widthLabel := MaxWidth(devices, LabelColumn, mode);
    var widthDevPath := MaxWidth(devices, DevPathColumn, mode);
    w := Widths(widthNode, widthDevPath, widthSize, widthLabel, widthManufacturer, widthProduct);
  }

  /** The partition loop of `usb_device_list_table_str`: a newline and a row for each partition,
      the last one with the closing connector. */
  method PartitionRowsText(partitions: seq<Partition>, w: Widths, mode: int) returns (s: string)
    requires w.Valid()
    ensures s == NewlinePrefixed(Rendered(PartitionLinesOf(partitions), w, mode))
  {
    ghost var lines := Rendered(PartitionLinesOf(partitions), w, mode);
    s := "";
    var j := 0;
    NewlinePrefixedPrefix(lines, 0);
    while j < |partitions|
      invariant 0 <= j <= |partitions|
      invariant s == NewlinePrefixed(lines[..j])
    {
      var row := PartitionRowText(partitions[j], w, mode, j + 1 == |partitions|);
      NewlinePrefixedStep(lines, j);
      s := s + "\n" + row;
      j := j + 1;
    }
    NewlinePrefixedPrefix(lines, |lines|);
  }

  /** One pass of the device loop of `usb_device_list_table_str`: a newline and the device's
      row, then its partition rows. */
  method DeviceBlockText(d: Device, w: Widths, mode: int) returns (piece: string)
    requires w.Valid()
    ensures piece == NewlinePrefixed(Rendered(DeviceLinesOf(d), w, mode))
  {
    var row := DeviceRowText(d, w, mode);
    var rows := PartitionRowsText(d.partitions, w, mode);
    RenderedConcat([DeviceLine(d)], PartitionLinesOf(d.partitions), w, mode);
    assert Rendered([DeviceLine(d)], w, mode) == [row];
    NewlinePrefixedCons(row, Rendered(PartitionLinesOf(d.partitions), w, mode));
    piece := "\n" + row + rows;
  }

  /** `usb_device_list_table_str`: fills in the widths, writes the header row, then for each
      device a newline and its row and, for each of its partitions, a newline and a partition
      row whose connector depends on whether another partition follows. */
  method TableString(devices: seq<Device>, mode: int) returns (t: string)
    ensures t == TableText(devices, mode)
  {
    var w := ComputeWidths(devices, mode);
    t := HeaderRow(w);
    ghost var header := t;
    assert devices[..0] == [];
    var i := 0;
    while i < |devices|
      invariant 0 <= i <= |devices|
      invariant t == header + NewlinePrefixed(Rendered(Layout(devices[..i]), w, mode))
    {
      ghost var before := Rendered(Layout(devices[..i]), w, mode);
      var piece := DeviceBlockText(devices[i], w, mode);
      LayoutStep(devices, i);
      RenderedConcat(Layout(devices[..i]), DeviceLinesOf(devices[i]), w, mode);
      NewlinePrefixedConcat(before, Rendered(DeviceLinesOf(devices[i]), w, mode));
      AppendAssoc(header, NewlinePrefixed(before), piece);
      t := t + piece;
      i := i + 1;
    }
    assert devices[..|devices|] == devices;
  }
}
