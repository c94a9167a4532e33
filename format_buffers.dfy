/** The three `printf` format strings `usb_device_list_table_str` (usb.c) builds with `sprintf`
    before it lays out the table, and the stack arrays it builds them in. Sizes are counted in
    bytes of UTF-8, as `strlen` and `sprintf` count them. */
module FormatBuffers {
  import opened Numeric
  import opened Table

  /** Bytes of the UTF-8 encoding of `s`. */
  function Utf8Length(s: string): nat
  {
    if s == [] then 0
    else
      var c := s[|s| - 1] as int;
      Utf8Length(s[..|s| - 1]) + (if c < 0x80 then 1 else if c < 0x800 then 2 else if c < 0x1_0000 then 3 else 4)
  }

  /** A connector is a space, two box-drawing characters of three bytes each, and a space. */
  lemma ConnectorBytes()
    ensures Utf8Length(Branch) == 8 && Utf8Length(LastBranch) == 8
  {
    ConnectorBytesOf(Branch, '├');
    ConnectorBytesOf(LastBranch, '╰');
  }

  lemma ConnectorBytesOf(connector: string, corner: char)
    requires connector == [' ', corner, '─', ' '] && 0x800 <= corner as int < 0x1_0000
    ensures Utf8Length(connector) == 8
  {
    assert Utf8Length([' ']) == 1;
    assert connector[..1] == [' '] && connector[..2][..1] == [' '];
    assert Utf8Length(connector[..2]) == 4;
    assert connector[..3][..2] == connector[..2];
    assert Utf8Length(connector[..3]) == 7;
    assert connector[..4][..3] == connector[..3];
  }

  /** `table_line_str_size`: the column widths plus one byte after each for a tab or the NUL. */
  function LineSize(w: Widths): nat
  {
    w.node + 1 + w.devPath + 1 + w.size + 1 + w.fsLabel + 1 + w.manufacturer + 1 + w.product + 1
  }

  /** Bytes of a conversion `%-<n>s`. */
  function SpecBytes(n: nat): nat
  {
    3 + DigitCount(n)
  }

  /** Bytes of the device-row format string, six conversions separated by tabs (no NUL). */
  function RowFormatBytes(w: Widths): nat
  {
    SpecBytes(w.node) + SpecBytes(w.devPath) + SpecBytes(w.size) + SpecBytes(w.fsLabel)
      + SpecBytes(w.manufacturer) + SpecBytes(w.product) + 5
  }

  /** Bytes of a partition-row format string: the first four conversions are four narrower and
      each follows a connector (no NUL). */
  function PartitionFormatBytes(w: Widths, connector: string): nat
    requires w.Valid()
  {
    4 * Utf8Length(connector)
      + SpecBytes(w.node - 4) + SpecBytes(w.devPath - 4) + SpecBytes(w.size - 4) + SpecBytes(w.fsLabel - 4)
      + SpecBytes(w.manufacturer) + SpecBytes(w.product) + 5
  }

  // The arrays as declared: `table_fmt_str` and `table_partition_fmt_str` have eight bytes more
  // than a table line, `table_last_partition_fmt_str` exactly a table line.

  function RowBufferAsWritten(w: Widths): nat { LineSize(w) + 8 }

  function PartitionBufferAsWritten(w: Widths): nat { LineSize(w) + 8 }

  function LastPartitionBufferAsWritten(w: Widths): nat { LineSize(w) }

  /** `%lu` of a number of at least four needs at least two bytes fewer than the number. */
  lemma {:induction false} DigitCountBound(n: nat)
    ensures DigitCount(n) <= n + 1
    ensures n >= 4 ==> DigitCount(n) + 2 <= n
  {
    if n >= 10 {
      DigitCountBound(n / 10);
      assert DecimalString(n) == DecimalString(n / 10) + [DigitChar(n % 10)];
    }
  }

  /** The device-row format string and its NUL always fit the array declared for it. */
  lemma RowFormatFits(devices: seq<Inventory.Device>, mode: int)
    ensures var w := TableWidths(devices, mode);
      RowFormatBytes(w) + 1 <= RowBufferAsWritten(w)
  {
    var w := TableWidths(devices, mode);
    forall c | c in Columns
      ensures DigitCount(w.At(c)) + 2 <= w.At(c)
    {
      TableWidthsAt(devices, mode, c);
      ColumnWidthAtLeastHeader(devices, c, mode);
      DigitCountBound(w.At(c));
    }
    assert w.At(Columns[0]) == w.node && w.At(Columns[1]) == w.devPath && w.At(Columns[2]) == w.size;
    assert w.At(Columns[3]) == w.fsLabel && w.At(Columns[4]) == w.manufacturer && w.At(Columns[5]) == w.product;
  }

  /** With no device to print every width is its header's, a table line is 46 bytes, and both
      partition format strings are 62 bytes: `sprintf` writes 63 bytes into the 54 of
      `table_partition_fmt_str` and the 46 of `table_last_partition_fmt_str`. */
  lemma EmptyInventoryOverflows(mode: int)
    ensures var w := TableWidths([], mode);
      && LineSize(w) == 46
      && PartitionFormatBytes(w, Branch) == PartitionFormatBytes(w, LastBranch) == 62
      && PartitionFormatBytes(w, Branch) + 1 > PartitionBufferAsWritten(w)
      && PartitionFormatBytes(w, LastBranch) + 1 > LastPartitionBufferAsWritten(w)
  {
    var w := TableWidths([], mode);
    assert w == Widths(4, 8, 4, 5, 12, 7);
    ConnectorBytes();
    assert DigitCount(0) == 1 && DigitCount(4) == 1 && DigitCount(1) == 1 && DigitCount(7) == 1;
    assert DecimalString(12) == DecimalString(1) + [DigitChar(2)];
    assert DigitCount(12) == 2;
  }

  /** The size that holds each partition format string and its NUL: a table line and forty
      bytes, the most the connectors and the width digits can add to it. */
  function PartitionBuffer(w: Widths): (n: nat)
    requires w.Valid()
    ensures PartitionFormatBytes(w, Branch) + 1 <= n
    ensures PartitionFormatBytes(w, LastBranch) + 1 <= n
  {
    ConnectorBytes();
    DigitCountBound(w.node - 4);
    DigitCountBound(w.devPath - 4);
    DigitCountBound(w.size - 4);
    DigitCountBound(w.fsLabel - 4);
    DigitCountBound(w.manufacturer);
    DigitCountBound(w.product);
    LineSize(w) + 40
  }
}
