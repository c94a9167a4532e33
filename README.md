# sallymount `usb.c` in Dafny

sallymount lists USB mass-storage devices and their partitions, and mounts them. Its core is
`usb.c`, which covers:

- building an inventory of devices, each with its partitions, in two singly linked lists;
- formatting a byte count as an exact number or a scaled number with a unit letter;
- trimming white space;
- laying the inventory out either as an aligned table or as a verbose "detail" listing;
- choosing devices by their USB device path and mounting their partitions in order, stopping
  at the first failure.

This project models that core and proves what each operation computes. The modules follow the
source:

| module | file | models |
|---|---|---|
| `Text` | `text.dfy` | `trim`, plus joining lines and fields |
| `Numeric` | `numeric.dfy` | `%lu`/`%d` output, `atoi`/`atol`, `num_digits` |
| `SizeFormat` | `size_format.dfy` | `human_readable_size` |
| `LinkedList` | `linked_list.dfy` | `usb_device_list_*` and `usb_partition_list_*`: new, add, size |
| `Inventory` | `inventory.dfy` | the device and partition records, `usb_device_and_partition_list_size` |
| `Table` | `table.dfy` | the six `usb_device_list_table_max_width_*` functions, `usb_device_list_table_str` |
| `FormatBuffers` | `format_buffers.dfy` | the format-string arrays of `usb_device_list_table_str` |
| `Detail` | `detail.dfy` | `usb_device_list_detail_str` |
| `Orchestration` | `orchestration.dfy` | `usb_print*` and `usb_mount*` |
| `Discovery` | `discovery.dfy` | the record-building rules of `usb_device_list_get` |

How the source is represented:

- **Lists.** Both lists are one generic class, `LinkedList.List<T>`. It has real `Node` cells
  and ghost `nodes`, `contents` and `Repr` fields. `Add` fills the empty head cell, or walks to
  the tail and links a new cell, exactly as the C code does.
- **Traversals.** `List.Size`, `List.Items`, `Inventory.DeviceAndPartitionCount` and the
  `MountAll` and `MountMultiple` loops walk the cells through `next`. The width, table, detail
  and print loops iterate over the sequence that `List.Items` reads off the cells.
- **Mounting.** `usb_mount_partition` is the parameter `mount: Partition -> int`. Each mount
  operation returns its exit code together with the partitions it tried, in order.
- **Printing.** Printing returns the text that `printf` would write.
- **Discovery.** udev is replaced by a sequence of `Candidate` values. Each candidate holds what
  the udev queries answer for one SCSI device: its USB parent, its `block` and `scsi_disk`
  children, and its partitions with their attribute strings.

## Model

| member | source | states |
|---|---|---|
| `Text.Trim` | usb.c:219-237 | the result is `Trimmed(s)`: white space (`isspace`) skipped at the front, then at the back, and none skipped inside |
| `Text.TrimmedSlice` | usb.c:219-237 | the trimmed text is a contiguous slice of the input; everything cut before and after it is white space; it neither starts nor ends with white space; it is empty exactly when the input is all white space |
| `Text.TrimIdempotent` | usb.c:219-237 | trimming twice gives the same as trimming once |
| `Numeric.NumDigitsIsLength` | usb.c:158-161 | for `n > 0`, `floor(log10(n)) + 1` (the `d` with `10^(d-1) <= n < 10^d`) is the number of characters `%lu` prints |
| `Numeric.NumDigitsAsWritten` | usb.c:158-161 | `num_digits` as written, through the `long` cast and `labs`, with `floor(log10(·)) + 1` taken over exact integers: there is no count exactly at 0 (`log10(0)`) and at 2^63 (`labs` of the most negative `long`), and below 2^63 the count is the printed length |
| `Numeric.ZeroHasNoDigitCount` | usb.c:158-161 | at 0 the source has no digit count, while `%lu` prints one digit |
| `Numeric.WrappedSizeUndercounted` | usb.c:158-161 | for the size 2^64-512 (a `size` attribute of "-1" times 512) the source counts 3 digits, but `%lu` prints 20 |
| `Numeric.DigitCount` | usb.c:167-172 | corrected digit count: the printed length of every `n`, zero included |
| `Numeric.AtoiDecimalString` | usb.c:655-657 | `atoi`/`atol` read back the number `%lu` printed |
| `Numeric.AtoiIntString` | usb.c:676 | `atoi` reads back the number `%d` printed, negative numbers included |
| `SizeFormat.HumanReadableSize` | usb.c:163-217 | the result is `FormatSize(n, mode)`; in mode 0 the model builds the text in an array of the corrected size `DigitCount(n) + 1`, not the source's `num_digits(n) + 1` (see Findings) |
| `SizeFormat.ExactWhenUnscaled` | usb.c:167-173 | in mode 0, and below the base in modes 1 and 2, the text is the exact decimal number and `atoi` reads `n` back |
| `SizeFormat.ScaledShape` | usb.c:186-216 | at or above the base (1024 in mode 1, 1000 in any other non-zero mode), the text is a number `v >= 1` and one unit letter; `v` is below the base unless the unit is Y; `atoi` reads `v` back |
| `SizeFormat.ScaleIsLeast` | usb.c:202-212 | the unit is the first one at which the rounded-down quotient drops below the base; Y caps the scale |
| `SizeFormat.QuotIsDivPow` | usb.c:206-214 | dividing `k` times, rounding down each time, equals dividing once by `base^k` and rounding down |
| `SizeFormat.SixtyFourBitSizes` | usb.c:163-217 | for every 64-bit size the unit is at most E: the Y cap is never reached |
| `SizeFormat.ExactExamples` | usb.c:167-200 | 0 and 1023 print exactly in mode 1; 1024 prints exactly in mode 0 |
| `SizeFormat.ScaledExamples` | usb.c:202-214 | 1024 is "1K" and 1536 is "1K" in mode 1; 1100 is "1K" in mode 2; 1048576 is "1M" in mode 1 |
| `LinkedList.List.constructor` | usb.c:253-260 | a new list is one empty head cell with no items |
| `LinkedList.List.Add` | usb.c:239-251 | the item is appended after the earlier items, which are unchanged; the head cell stays the same, the chain stays well formed, and any cell added is new |
| `LinkedList.List.Size` | usb.c:576-586 | the count is the number of items |
| `Inventory.DeviceAndPartitionCount` | usb.c:588-606 | the count is the number of devices plus the number of their partitions |
| `Inventory.EntriesAtLeastDevices` | usb.c:588-606 | that count is at least the number of devices, with equality exactly when no device has a partition |
| `Inventory.EntriesAppend` | usb.c:588-606 | the count of two inventories put together is the sum of their counts |
| `Table.MaxWidth` | usb.c:262-402 | the width of a column is `ColumnWidth`: the largest of the header, the device cells and (in NODE, DEV_PATH, SIZE and LABEL) each partition cell plus 4 |
| `Table.DeviceMaxWidth` | usb.c:266-270 | the width after one device is the larger of the width so far and what that device asks for |
| `Table.PartitionsMaxWidth` | usb.c:274-281 | the width after a device's partitions is the larger of the width so far and each partition cell plus 4 |
| `Table.ColumnWidthAtLeastHeader` | usb.c:264 | every column is at least as wide as its header, and at least 4 |
| `Table.DeviceCellsFit` | usb.c:266-270 | every device cell fits its column |
| `Table.PartitionCellsFit` | usb.c:274-281 | every partition cell plus its 4-column connector fits its column |
| `Table.ColumnWidthAttained` | usb.c:262-402 | the width is attained: it is exactly the header, some device cell, or some partition cell plus 4 |
| `Table.ComputeWidths` | usb.c:468-473 | the six widths are the six `ColumnWidth`s |
| `Table.TableString` | usb.c:466-574 | the result is `TableText`: the header row, then for each device a device row and its partition rows, each row on a new line |
| `Table.LayoutCount` | usb.c:525-571 | the table has one row per device and one per partition, below the header |
| `Table.LayoutPlacement` | usb.c:525-571 | device `k`'s row comes after all rows of the earlier devices, with its partitions' rows directly after it, in order; only the last partition's row is marked last |
| `Table.LayoutFrom` | usb.c:525-571 | every row shows either a device of the inventory or a partition of one of its devices |
| `Table.PartitionRowConnector` | usb.c:494-510 | a partition row starts with the connector " ╰─ " when it is its device's last partition and with " ├─ " otherwise; the two differ and are 4 characters wide |
| `Table.HeaderAligned` | usb.c:485-523 | every header cell is padded to exactly its column's width |
| `Table.DeviceRowAligned` | usb.c:531-538 | every cell of a device row is padded to exactly its column's width |
| `Table.PartitionRowAligned` | usb.c:547-565 | every cell of a partition row, connector included, is exactly its column's width |
| `Table.EmptyTable` | usb.c:516-523 | an empty inventory gives the header row alone: the six header words separated by tabs |
| `Table.PartitionRowsText` | usb.c:542-568 | the text of a device's partitions is their rows, each on a new line |
| `FormatBuffers.ConnectorBytes` | usb.c:495 | each connector is 8 bytes of UTF-8 |
| `FormatBuffers.RowFormatFits` | usb.c:481-492 | the device-row format string and its NUL always fit `table_fmt_str` |
| `FormatBuffers.EmptyInventoryOverflows` | usb.c:481-510 | with no device, both partition format strings take 63 bytes, more than their 54- and 46-byte arrays |
| `FormatBuffers.PartitionBuffer` | usb.c:482-483 | corrected array size, a table line plus 40 bytes, which holds either partition format string and its NUL for every table |
| `Detail.DetailString` | usb.c:404-464 | the result is `DetailText`: the devices' blocks separated by a blank line, with no separator after the last |
| `Detail.DeviceDetailLines` | usb.c:409-453 | a device's block is its 11 device lines and then the 5 lines of each partition, in order, one per line |
| `Detail.BlockLayout` | usb.c:409-453 | line `i` of a block is the `i`th device label and the `i`th field; line `11 + 5j + f` is partition label `f` and field `f` of partition `j` |
| `Detail.LabelWidths` | usb.c:411-444 | every device label is 14 characters long and every partition label is 18, each with its tab at column 13 |
| `Detail.NumbersReadBack` | usb.c:412-446 | `atoi` of the value on the BUS line gives the bus number, and on each PARTITION line it gives the partition number |
| `Detail.VersionTrimmed` | usb.c:420-432 | the VERSION line shows the version trimmed, with no white space at either end |
| `Detail.EmptyDetail` | usb.c:406-463 | an empty inventory gives the empty text |
| `Detail.SingleDetail` | usb.c:455-458 | a single device gets no trailing blank line |
| `Detail.DetailConcat` | usb.c:455-458 | the listing of two non-empty inventories is the two listings with one blank line between them |
| `Detail.PartitionsDetailText` | usb.c:437-453 | the partition text is each partition's 5 lines, each line preceded by a line break |
| `Orchestration.FirstFailure` | usb.c:79-85 | the position of the first partition whose mount fails; every partition before it mounted |
| `Orchestration.AttemptResult` | usb.c:74-88 | the code is 0 exactly when every partition mounts, and then all were tried; otherwise the tried partitions are a prefix, all but the last mounted, and the last one's code is returned |
| `Orchestration.AttemptConcat` | usb.c:74-131 | mounting one sequence after another stops in the first if it fails there, and otherwise continues into the second |
| `Orchestration.MountDevice` | usb.c:74-88 | mounts the device's partitions in order up to the first failure; the code and the tried partitions are `Attempt(partitions)` |
| `Orchestration.MountAll` | usb.c:118-131 | walks the inventory's cells and mounts every device's partitions in inventory order up to the first failure |
| `Orchestration.MountIfNamed` | usb.c:103-110 | a device named one or more times among the paths is mounted once; an unnamed one is not touched |
| `Orchestration.MountMultiple` | usb.c:97-116 | mounts the devices whose device path is among the paths, in inventory order and not path order, up to the first failure |
| `Orchestration.Mount` | usb.c:90-95 | mounts the devices with the one given path |
| `Orchestration.MountSelectionMembers` | usb.c:102-113 | the mounted devices are exactly the inventory's devices whose path is named |
| `Orchestration.MountSelectionNamesOnly` | usb.c:103-110 | what is mounted depends only on the set of paths, not on their order or repetition |
| `Orchestration.FirstNamed` | usb.c:35-44 | the first device with the path; no earlier device has that path |
| `Orchestration.FindNamed` | usb.c:35-44 | finds the first device whose path matches, or none |
| `Orchestration.PrintSelectionSingle` | usb.c:32-45 | one path selects the first device with that path, or none when no device has it |
| `Orchestration.PrintSelectionConcat` | usb.c:32-45 | the print selection goes path by path, so selecting for two path lists appends the two selections |
| `Orchestration.SelectionOrders` | usb.c:26-116 | printing follows the order of the paths, and mounting follows the order of the inventory |
| `Orchestration.SelectInto` | usb.c:35-44 | appends the first device with the path, if there is one, to the list to print |
| `Orchestration.PrintMultiple` | usb.c:26-54 | the exit code is 0, and the output is the detail listing (verbose) or the table of the selected devices, followed by a newline |
| `Orchestration.Print` | usb.c:19-24 | a single path prints the first device with it |
| `Orchestration.PrintAll` | usb.c:56-67 | the exit code is 0, and the output is the listing of the whole inventory followed by a newline |
| `Discovery.DeviceListGet` | usb.c:608-713 | the list holds one device per kept candidate, in enumeration order, each built by `MakeDevice` |
| `Discovery.DiscoveredFromKept` | usb.c:635-699 | a device is on the list exactly when some candidate with a USB parent, a block child and a scsi_disk child produced it; the list is never longer than the candidates |
| `Discovery.DiscoveredConcat` | usb.c:627-706 | discovery over two runs of candidates is the two lists appended |
| `Discovery.BuildDevice` | usb.c:636-698 | builds the device record of a kept candidate, as `MakeDevice` |
| `Discovery.MakeDeviceFields` | usb.c:638-698 | every field of the record: node, size and label from the block child; manufacturer, product, serial, device path, sys path, speed and version from the USB parent; `maxchild` and `busnum` read with `atoi`; the size is the sector count times 512 modulo 2^64; a missing label becomes "" and a present one is kept; one partition per enumerated entry, in order, each with its node, sys path, `atoi` of its `partition` attribute, the path `<dev_path>-<partition>`, its size in bytes and its label by the same rule |
| `Discovery.BuildPartitions` | usb.c:659-694 | the partition list holds one partition per partition entry, in order |
| `Discovery.PartitionDevPathShape` | usb.c:677-679 | a partition path starts with the device path and "-", and what follows is the partition attribute |
| `Discovery.CanonicalPartitionNumber` | usb.c:673-676 | when the partition attribute is the `%d` text of a number, the partition number is that number |
| `Discovery.PartitionDevPathsDistinct` | usb.c:677-679 | partition paths of one device are equal exactly when their partition attributes are, and never equal to the device path |
| `Discovery.SectorBytesExact` | usb.c:657 | the size is sectors times 512 with no wrap-around below 2^55 sectors; it is always a multiple of 512 and below 2^64 |

## Left out

- udev: enumeration, the parent and child lookups, and `usb_udev_device_get_child` (usb.c:738-753)
  are replaced by the `Candidate` sequence. The hub-device lookup (usb.c:631) has no effect on
  the result and is not modelled.
- `printf` in `usb_print*`: the text is returned instead of written.
- The umount functions (usb.c:133-156) are not modelled. They are placeholders: `usb_umount`
  prints `UMOUNT <path>` and returns 0, `usb_umount_multiple` calls it for each path until one
  returns non-zero, and `usb_umount_all` prints `UMOUNT ALL` and returns 0.
- `usb_mount_partition` (usb.c:69-72) has an empty body, so its return value is undefined. It
  is the parameter `mount`.
- `Numeric.NumDigitsAsWritten`: the model counts digits over exact integers. The source
  evaluates `log10` in `double` arithmetic, so just below a power of ten from 10^15 up it can
  round up and count one digit too many: `num_digits(999999999999999)` is 16 in the source, while
  the model gives 15. Such an overcount only makes the exact-mode buffer one byte larger than
  needed. At 2^63 the model gives no count: `labs` of the most negative `long` is undefined.
- `SizeFormat.HumanReadableSize`: the mode-0 array is sized with the corrected
  `Numeric.DigitCount`, not with the source's `num_digits`. The source's buffer size is modelled
  only by `Numeric.NumDigitsAsWritten`, within the Findings.
- `SizeFormat.HumanReadableSize`: the source divides a `double` and prints `floor(size)` with
  `%G`. The model uses integer division. A `double` holds every size below 2^53 exactly, and
  `QuotIsDivPow` shows that repeated division floored matches that for exact values. Above
  2^53 the conversion to `double` rounds, and the model can then print a different number than
  the source. For example, n = 9·2^60 - 512 in mode 1 becomes the `double` 9·2^60: the source
  prints "9E" while the model prints "8E". `%G` rounding of quotients above 999999 does not
  arise, because no 64-bit size reaches Y.
- Memory management is not modelled: `malloc`, `strdup`, `free` and allocation failure, and
  the size of the `table_str` buffer. The format-string arrays are modelled by `FormatBuffers`
  only for the finding below.
- Widths are counted in characters, while `strlen` counts bytes. They agree for ASCII text;
  the connectors are counted as 4 wide in both.
- `trim` writes a NUL into the device's `version` in place. The model returns the trimmed copy
  and leaves the device unchanged.
- `strdup` of a NULL attribute (undefined behaviour) is not modelled: every attribute is a
  string.
- `Numeric.Atoi` does not overflow: `atoi`/`atol` overflow is undefined behaviour. The
  `* (size_t)512` wrap-around is modelled in `Discovery.SectorBytes`.
- `detail_str` and `table_str` test `list->next` to decide the blank line and the last
  partition. The model tests "last item of the contents". These agree for every list built by
  `Add`, whose cells after the head all hold an item.
- The six `usb_device_list_table_max_width_*` functions are one method, `Table.MaxWidth`,
  taking the column as a parameter. MANUFACTURER and PRODUCT do not count partitions.
- `usb_print_multiple` and `usb_print_all` read the inventory through `List.Items`.
  `usb_print_multiple` builds `list_to_print` with `Add` through `Orchestration.SelectInto`.
- `sallymount.c`, `cli.c`, `mount.c` and `umount.c` are not part of this model. Neither are the
  `usb.h` prototypes, which do not match the definitions (the callers in `sallymount.c` pass no
  mode and no verbose flag).
- Where the code and its documentation disagree, the code is followed:
  - devices are chosen by their USB device path only;
  - mounting stops at the first failure;
  - the table has no TYPE column and no placeholder for empty fields.

## Findings

| source | as written | input that shows it | evidently intended | confidence | as-written member | corrected member |
|---|---|---|---|---|---|---|
| usb.c:158-161, 167-170 | `num_digits(0)` is `floor(log10(0)) + 1`, negative infinity converted to `size_t`, which is undefined; this sizes the exact-mode buffer | a zero-size device (a card reader with no medium) printed in mode 0 | a buffer of one digit plus the NUL for 0 | high (not executed) | `Numeric.NumDigitsAsWritten`, `Numeric.ZeroHasNoDigitCount` | `Numeric.DigitCount` |
| usb.c:158-161 | the `size_t` argument is converted to `long`, and `labs` shrinks sizes above 2^63 (and is undefined at 2^63) | size 2^64-512, from a `size` attribute of "-1": the `long` is -512, the count 3, and `%lu` prints 20 digits | count the digits of the unsigned value | medium: such sizes do not occur in practice (not executed) | `Numeric.NumDigitsAsWritten`, `Numeric.WrappedSizeUndercounted` | `Numeric.DigitCount` |
| usb.c:481-510 | `table_partition_fmt_str` has a table line plus 8 bytes and `table_last_partition_fmt_str` exactly a table line; each receives a format string with eight bytes of connectors per field and the width digits | no devices to print (`usb_print_all` with nothing plugged in): widths 4, 8, 4, 5, 12, 7, a 46-byte line, and 63 bytes written into arrays of 54 and 46 | arrays large enough for the format strings | high (not executed) | `FormatBuffers.EmptyInventoryOverflows` | `FormatBuffers.PartitionBuffer` |
