/** The top-level operations of usb.c over the inventory: printing the devices named by their
    `dev_path`s (`usb_print_multiple`, `usb_print`, `usb_print_all`) and mounting every
    partition of the named devices, or of all of them (`usb_mount_multiple`, `usb_mount`,
    `usb_mount_all`, `usb_mount_device`).

    The mount primitive `usb_mount_partition` has no body in the source, so it is a parameter
    here: a function from a partition to the code the primitive returns, 0 meaning success.
    A mount operation's result is that code together with the partitions it was called on. The
    text an operation hands to `printf` is returned instead of printed. */
module Orchestration {
  import opened LinkedList
  import opened Inventory
  import opened Table
  import opened Detail
  import opened Text

  /** The code a mount operation returns and the partitions it tried, in order. */
  datatype Outcome = Outcome(code: int, tried: seq<Partition>)

  // ---------------------------------------------------------------------------------------
  // Mounting

  /** The index of the first partition the primitive fails on, or `|partitions|`. */
  function FirstFailure(partitions: seq<Partition>, mount: Partition -> int): (k: nat)
    ensures k <= |partitions|
    ensures forall i :: 0 <= i < k ==> mount(partitions[i]) == 0
    ensures k < |partitions| ==> mount(partitions[k]) != 0
  {
    if partitions == [] then 0
    else if mount(partitions[0]) != 0 then 0
    else 1 + FirstFailure(partitions[1..], mount)
  }

  /** Mounting `partitions` one after the other and stopping at the first failure. */
  function Attempt(partitions: seq<Partition>, mount: Partition -> int): Outcome
  {
    var k := FirstFailure(partitions, mount);
    if k < |partitions| then Outcome(mount(partitions[k]), partitions[..k + 1])
    else Outcome(0, partitions)
  }

  /** The partitions of `devices`, device by device, each device's in list order. */
  function AllPartitions(devices: seq<Device>): (r: seq<Partition>)
  {
    if devices == [] then []
    else AllPartitions(devices[..|devices| - 1]) + devices[|devices| - 1].partitions
  }

  /** The first failure is the only index before which all succeed and at which one fails. */
  lemma {:induction false} FirstFailureUnique(partitions: seq<Partition>, mount: Partition -> int, j: nat)
    requires j <= |partitions|
    requires forall i :: 0 <= i < j ==> mount(partitions[i]) == 0
    requires j < |partitions| ==> mount(partitions[j]) != 0
    ensures FirstFailure(partitions, mount) == j
  {
    if partitions != [] && mount(partitions[0]) == 0 {
      var rest := partitions[1..];
      assert j > 0;
      assert forall i :: 0 <= i < j - 1 ==> mount(rest[i]) == mount(partitions[i + 1]);
      FirstFailureUnique(rest, mount, j - 1);
    }
  }

  /** Mounting returns 0 exactly when every partition mounts, and then it has tried them
      all; otherwise it has tried a prefix whose members all succeeded but the last, and it
      returns the last one's code. */
  lemma AttemptResult(partitions: seq<Partition>, mount: Partition -> int)
    ensures var o := Attempt(partitions, mount);
      && (o.code == 0 <==> forall i :: 0 <= i < |partitions| ==> mount(partitions[i]) == 0)
      && (o.code == 0 ==> o.tried == partitions)
      && (o.code != 0 ==>
            && o.tried != [] && o.tried <= partitions
            && o.code == mount(o.tried[|o.tried| - 1])
            && forall i :: 0 <= i < |o.tried| - 1 ==> mount(o.tried[i]) == 0)
  {
  }

  /** Mounting two runs one after the other: the second is only reached when the first
      succeeds throughout. */
  lemma AttemptConcat(a: seq<Partition>, b: seq<Partition>, mount: Partition -> int)
    ensures Attempt(a + b, mount)
         == if Attempt(a, mount).code != 0 then Attempt(a, mount)
            else Outcome(Attempt(b, mount).code, a + Attempt(b, mount).tried)
  {
    var ka := FirstFailure(a, mount);
    var kb := FirstFailure(b, mount);
    var ab := a + b;
    if ka < |a| {
      assert forall i :: 0 <= i < ka ==> ab[i] == a[i];
      FirstFailureUnique(ab, mount, ka);
      assert ab[..ka + 1] == a[..ka + 1];
    } else {
      assert forall i :: 0 <= i < |a| + kb ==> mount(ab[i]) == 0 by {
        assert forall i :: |a| <= i < |a| + kb ==> ab[i] == b[i - |a|];
      }
      FirstFailureUnique(ab, mount, |a| + kb);
      if kb < |b| {
        assert ab[..|a| + kb + 1] == a + b[..kb + 1];
      }
    }
  }

  lemma {:induction false} AllPartitionsConcat(a: seq<Device>, b: seq<Device>)
    ensures AllPartitions(a + b) == AllPartitions(a) + AllPartitions(b)
    decreases |b|
  {
    if b == [] {
      assert a + b == a;
    } else {
      var init := b[..|b| - 1];
      assert (a + b)[..|a + b| - 1] == a + init;
      assert (a + b)[|a + b| - 1] == b[|b| - 1];
      AllPartitionsConcat(a, init);
      AppendAssoc(AllPartitions(a), AllPartitions(init), b[|b| - 1].partitions);
    }
  }

  /** `usb_mount_device`: mounts the device's partitions in list order and returns the first
      non-zero code, or 0. */
  method MountDevice(d: Device, mount: Partition -> int) returns (code: int, tried: seq<Partition>)
    ensures Outcome(code, tried) == Attempt(d.partitions, mount)
  {
    var partitions := d.partitions;
    code := 0;
    tried := [];
    var j := 0;
    while j < |partitions|
      invariant 0 <= j <= |partitions|
      invariant tried == partitions[..j]
      invariant forall i :: 0 <= i < j ==> mount(partitions[i]) == 0
    {
      tried := tried + [partitions[j]];
      code := mount(partitions[j]);
      if code != 0 {
        FirstFailureUnique(partitions, mount, j);
        assert tried == partitions[..j + 1];
        return;
      }
      j := j + 1;
    }
    FirstFailureUnique(partitions, mount, j);
    assert tried == partitions;
  }

  /** A failure ends the run: whatever follows is never tried. */
  lemma AttemptStopsEarly(a: seq<Partition>, b: seq<Partition>, mount: Partition -> int)
    requires Attempt(a, mount).code != 0
    ensures Attempt(a + b, mount) == Attempt(a, mount)
  {
    AttemptConcat(a, b, mount);
  }

  /** One more device after a run of devices whose partitions all mounted. */
  lemma MountStep(devices: seq<Device>, k: nat, mount: Partition -> int, code: int, tried: seq<Partition>)
    requires k < |devices|
    requires Attempt(AllPartitions(devices[..k]), mount) == Outcome(0, AllPartitions(devices[..k]))
    requires Outcome(code, tried) == Attempt(devices[k].partitions, mount)
    ensures Attempt(AllPartitions(devices[..k + 1]), mount) == Outcome(code, AllPartitions(devices[..k]) + tried)
  {
    assert devices[..k + 1][..k] == devices[..k];
    AttemptConcat(AllPartitions(devices[..k]), devices[k].partitions, mount);
  }

  /** A failure among the first `k` devices' partitions is the result for the whole run. */
  lemma MountStopsEarly(devices: seq<Device>, k: nat, mount: Partition -> int)
    requires k <= |devices|
    requires Attempt(AllPartitions(devices[..k]), mount).code != 0
    ensures Attempt(AllPartitions(devices), mount) == Attempt(AllPartitions(devices[..k]), mount)
  {
    assert devices == devices[..k] + devices[k..];
    AllPartitionsConcat(devices[..k], devices[k..]);
    AttemptStopsEarly(AllPartitions(devices[..k]), AllPartitions(devices[k..]), mount);
  }

  /** `usb_mount_all`: walks the inventory and mounts each device, returning at the first
      device whose code is not 0. It is the same as mounting all the inventory's partitions
      in order. */
  method MountAll(inventory: List<Device>, mount: Partition -> int) returns (code: int, tried: seq<Partition>)
    requires inventory.Valid()
    ensures Outcome(code, tried) == Attempt(AllPartitions(inventory.contents), mount)
  {
    ghost var devices := inventory.contents;
    code := 0;
    tried := [];
    var cell: Node?<Device> := inventory.head;
    ghost var k := 0;
    assert devices[..0] == [];
    while cell != null && cell.item.Some?
      invariant k <= |inventory.nodes| && k <= |devices|
      invariant k < |inventory.nodes| ==> cell == inventory.nodes[k]
      invariant k == |inventory.nodes| ==> cell == null
      invariant devices == [] ==> k == 0
      invariant tried == AllPartitions(devices[..k])
      invariant Attempt(tried, mount) == Outcome(0, tried)
      decreases |inventory.nodes| - k
    {
      var c, t := MountDevice(cell.item.value, mount);
      MountStep(devices, k, mount, c, t);
      tried := tried + t;
      if c != 0 {
        code := c;
        MountStopsEarly(devices, k + 1, mount);
        return;
      }
      cell := cell.next;
      k := k + 1;
    }
    assert devices[..k] == devices;
  }

  /** The inner loop of `usb_mount_multiple` for one device: if some argument is its
      `dev_path`, the device is mounted, once however many arguments name it. */
  method MountIfNamed(d: Device, paths: seq<string>, mount: Partition -> int) returns (code: int, tried: seq<Partition>)
    ensures Outcome(code, tried) == if d.devPath in paths then Attempt(d.partitions, mount) else Outcome(0, [])
  {
    code := 0;
    tried := [];
    var i := 0;
    while i < |paths|
      invariant 0 <= i <= |paths|
      invariant d.devPath !in paths[..i]
    {
      if d.devPath == paths[i] {
        code, tried := MountDevice(d, mount);
        return;
      }
      assert paths[..i + 1] == paths[..i] + [paths[i]];
      i := i + 1;
    }
    assert paths[..i] == paths;
  }

  /** The devices `usb_mount_multiple` mounts: those of the inventory named by some argument,
      in inventory order. */
  function MountSelection(devices: seq<Device>, paths: seq<string>): seq<Device>
  {
    if devices == [] then []
    else
      var d := devices[|devices| - 1];
      MountSelection(devices[..|devices| - 1], paths) + (if d.devPath in paths then [d] else [])
  }

  /** A device is selected exactly when it is in the inventory and named; the selection keeps
      inventory order and only depends on which paths are named, not on their order or how
      often each is given. */
  lemma {:induction false} MountSelectionMembers(devices: seq<Device>, paths: seq<string>)
    ensures var s := MountSelection(devices, paths);
      && |s| <= |devices|
      && forall d :: d in s <==> d in devices && d.devPath in paths
  {
    if devices != [] {
      var init := devices[..|devices| - 1];
      MountSelectionMembers(init, paths);
      assert devices == init + [devices[|devices| - 1]];
    }
  }

  lemma {:induction false} MountSelectionConcat(a: seq<Device>, b: seq<Device>, paths: seq<string>)
    ensures MountSelection(a + b, paths) == MountSelection(a, paths) + MountSelection(b, paths)
    decreases |b|
  {
    if b == [] {
      assert a + b == a;
    } else {
      var init := b[..|b| - 1];
      var d := b[|b| - 1];
      assert (a + b)[..|a + b| - 1] == a + init;
      assert (a + b)[|a + b| - 1] == d;
      MountSelectionConcat(a, init, paths);
      AppendAssoc(MountSelection(a, paths), MountSelection(init, paths), if d.devPath in paths then [d] else []);
    }
  }

  lemma {:induction false} MountSelectionNamesOnly(devices: seq<Device>, paths: seq<string>, others: seq<string>)
    requires forall p :: p in paths <==> p in others
    ensures MountSelection(devices, paths) == MountSelection(devices, others)
  {
    if devices != [] {
      MountSelectionNamesOnly(devices[..|devices| - 1], paths, others);
    }
  }

  /** One more inventory device in the `usb_mount_multiple` walk, after a run whose selected
      partitions all mounted. */
  lemma MountMultipleStep(devices: seq<Device>, paths: seq<string>, k: nat, mount: Partition -> int,
                          code: int, tried: seq<Partition>)
    requires k < |devices|
    requires var done := AllPartitions(MountSelection(devices[..k], paths));
      Attempt(done, mount) == Outcome(0, done)
    requires Outcome(code, tried)
          == if devices[k].devPath in paths then Attempt(devices[k].partitions, mount) else Outcome(0, [])
    ensures var done := AllPartitions(MountSelection(devices[..k], paths));
      Attempt(AllPartitions(MountSelection(devices[..k + 1], paths)), mount) == Outcome(code, done + tried)
  {
    var d := devices[k];
    var before := MountSelection(devices[..k], paths);
    var own := if d.devPath in paths then [d] else [];
    assert devices[..k + 1][..k] == devices[..k];
    assert MountSelection(devices[..k + 1], paths) == before + own;
    AllPartitionsConcat(before, own);
    if d.devPath in paths {
      assert own[..0] == [];
      assert AllPartitions(own) == d.partitions;
      AttemptConcat(AllPartitions(before), d.partitions, mount);
    } else {
      assert AllPartitions(before) + [] == AllPartitions(before);
    }
  }

  /** A failure among the devices selected from the first `k` is the result for the whole
      selection. */
  lemma MountMultipleStopsEarly(devices: seq<Device>, paths: seq<string>, k: nat, mount: Partition -> int)
    requires k <= |devices|
    requires Attempt(AllPartitions(MountSelection(devices[..k], paths)), mount).code != 0
    ensures Attempt(AllPartitions(MountSelection(devices, paths)), mount)
         == Attempt(AllPartitions(MountSelection(devices[..k], paths)), mount)
  {
    var before := MountSelection(devices[..k], paths);
    var after := MountSelection(devices[k..], paths);
    assert devices == devices[..k] + devices[k..];
    MountSelectionConcat(devices[..k], devices[k..], paths);
    AllPartitionsConcat(before, after);
    AttemptStopsEarly(AllPartitions(before), AllPartitions(after), mount);
  }

  /** `usb_mount_multiple`: walks the inventory and mounts each device some argument names,
      returning at the first code that is not 0. It is the same as mounting, in order, the
      partitions of the selected devices. */
  method MountMultiple(inventory: List<Device>, paths: seq<string>, mount: Partition -> int)
    returns (code: int, tried: seq<Partition>)
    requires inventory.Valid()
    ensures Outcome(code, tried) == Attempt(AllPartitions(MountSelection(inventory.contents, paths)), mount)
  {
    ghost var devices := inventory.contents;
    code := 0;
    tried := [];
    var cell: Node?<Device> := inventory.head;
    ghost var k := 0;
    assert devices[..0] == [];
    while cell != null && cell.item.Some?
      invariant k <= |inventory.nodes| && k <= |devices|
      invariant k < |inventory.nodes| ==> cell == inventory.nodes[k]
      invariant k == |inventory.nodes| ==> cell == null
      invariant devices == [] ==> k == 0
      invariant tried == AllPartitions(MountSelection(devices[..k], paths))
      invariant Attempt(tried, mount) == Outcome(0, tried)
      decreases |inventory.nodes| - k
    {
      var c, t := MountIfNamed(cell.item.value, paths, mount);
      MountMultipleStep(devices, paths, k, mount, c, t);
      tried := tried + t;
      if c != 0 {
        code := c;
        MountMultipleStopsEarly(devices, paths, k + 1, mount);
        return;
      }
      cell := cell.next;
      k := k + 1;
    }
    assert devices[..k] == devices;
  }

  /** `usb_mount`: `usb_mount_multiple` with one argument. */
  method Mount(inventory: List<Device>, path: string, mount: Partition -> int) returns (code: int, tried: seq<Partition>)
    requires inventory.Valid()
    ensures Outcome(code, tried) == Attempt(AllPartitions(MountSelection(inventory.contents, [path])), mount)
  {
    code, tried := MountMultiple(inventory, [path], mount);
  }

  // ---------------------------------------------------------------------------------------
  // Printing

  /** The index of the first inventory device whose `dev_path` is `path`, or `|devices|`. */
  function FirstNamed(devices: seq<Device>, path: string): (k: nat)
    ensures k <= |devices|
    ensures forall i :: 0 <= i < k ==> devices[i].devPath != path
    ensures k < |devices| ==> devices[k].devPath == path
  {
    if devices == [] then 0
    else if devices[0].devPath == path then 0
    else 1 + FirstNamed(devices[1..], path)
  }

  /** The devices `usb_print_multiple` prints: for each argument in turn, the first inventory
      device it names, if any. */
  function PrintSelection(devices: seq<Device>, paths: seq<string>): seq<Device>
  {
    if paths == [] then []
    else PrintSelection(devices, paths[..|paths| - 1]) + Named(devices, paths[|paths| - 1])
  }

  /** The first device `path` names, if any. */
  function Named(devices: seq<Device>, path: string): seq<Device>
  {
    var k := FirstNamed(devices, path);
    if k < |devices| then [devices[k]] else []
  }

  /** One argument selects the first device it names, or nothing when it names none. */
  lemma PrintSelectionSingle(devices: seq<Device>, path: string)
    ensures var s := PrintSelection(devices, [path]);
      && (s == [] <==> forall i :: 0 <= i < |devices| ==> devices[i].devPath != path)
      && (s != [] ==> exists k :: 0 <= k < |devices| && s == [devices[k]] && devices[k].devPath == path &&
                                 forall i :: 0 <= i < k ==> devices[i].devPath != path)
  {
    assert [path][..0] == [];
    assert PrintSelection(devices, [path]) == Named(devices, path);
  }

  /** The selection follows the arguments: that of a run of arguments is that of its first
      part followed by that of its second, so a repeated argument selects its device again. */
  lemma {:induction false} PrintSelectionConcat(devices: seq<Device>, a: seq<string>, b: seq<string>)
    ensures PrintSelection(devices, a + b) == PrintSelection(devices, a) + PrintSelection(devices, b)
    decreases |b|
  {
    if b == [] {
      assert a + b == a;
    } else {
      var init := b[..|b| - 1];
      var p := b[|b| - 1];
      assert (a + b)[..|a + b| - 1] == a + init;
      assert (a + b)[|a + b| - 1] == p;
      PrintSelectionConcat(devices, a, init);
      AppendAssoc(PrintSelection(devices, a), PrintSelection(devices, init), Named(devices, p));
    }
  }

  /** The two selections differ in order: with two devices named in the reverse of inventory
      order, printing follows the arguments and mounting the inventory. */
  lemma SelectionOrders(a: Device, b: Device)
    requires a.devPath != b.devPath
    ensures PrintSelection([a, b], [b.devPath, a.devPath]) == [b, a]
    ensures MountSelection([a, b], [b.devPath, a.devPath]) == [a, b]
  {
    var paths := [b.devPath, a.devPath];
    assert [a, b][1..] == [b];
    FirstNamedUnique([a, b], b.devPath, 1);
    FirstNamedUnique([a, b], a.devPath, 0);
    assert Named([a, b], b.devPath) == [b];
    assert Named([a, b], a.devPath) == [a];
    assert paths[..1] == [b.devPath];
    PrintSelectionSingle([a, b], b.devPath);
    assert PrintSelection([a, b], [b.devPath]) == [b];
    assert [a, b][..1] == [a];
    assert [a][..0] == [];
    assert MountSelection([a], paths) == [a];
  }

  /** What `usb_print_multiple` and `usb_print_all` hand to `printf`: the detail listing when
      verbose, the table otherwise, and a newline. */
  function Listing(devices: seq<Device>, verbose: bool, mode: int): string
  {
    (if verbose then DetailText(devices, mode) else TableText(devices, mode)) + "\n"
  }

  /** The inner walk of `usb_print_multiple`: the first device whose `dev_path` is `path`. */
  method FindNamed(devices: seq<Device>, path: string) returns (r: Option<Device>)
    ensures var k := FirstNamed(devices, path);
      r == if k < |devices| then Some(devices[k]) else None
  {
    var k := 0;
    while k < |devices|
      invariant k <= |devices|
      invariant forall i :: 0 <= i < k ==> devices[i].devPath != path
    {
      if devices[k].devPath == path {
        FirstNamedUnique(devices, path, k);
        return Some(devices[k]);
      }
      k := k + 1;
    }
    FirstNamedUnique(devices, path, |devices|);
    return None;
  }

  lemma {:induction false} FirstNamedUnique(devices: seq<Device>, path: string, j: nat)
    requires j <= |devices|
    requires forall i :: 0 <= i < j ==> devices[i].devPath != path
    requires j < |devices| ==> devices[j].devPath == path
    ensures FirstNamed(devices, path) == j
  {
    if devices != [] && devices[0].devPath != path {
      var rest := devices[1..];
      assert forall i :: 0 <= i < j - 1 ==> rest[i] == devices[i + 1];
      FirstNamedUnique(rest, path, j - 1);
    }
  }

  lemma PrintSelectionStep(devices: seq<Device>, paths: seq<string>, i: nat)
    requires i < |paths|
    ensures PrintSelection(devices, paths[..i + 1]) == PrintSelection(devices, paths[..i]) + Named(devices, paths[i])
  {
    assert paths[..i + 1][..i] == paths[..i];
  }

  /** One pass of the argument loop of `usb_print_multiple`: the first device `path` names,
      if any, is added to the list to print. */
  method SelectInto(devices: seq<Device>, path: string, toPrint: List<Device>)
    requires toPrint.Valid()
    modifies toPrint.Repr
    ensures toPrint.Valid() && fresh(toPrint.Repr - old(toPrint.Repr))
    ensures toPrint.contents == old(toPrint.contents) + Named(devices, path)
  {
    var found := FindNamed(devices, path);
    if found.Some? {
      toPrint.Add(found.value);
    } else {
      assert old(toPrint.contents) + [] == old(toPrint.contents);
    }
  }

  /** `usb_print_multiple`: collects into a new list, for each argument, the first device it
      names, then renders that list. It always returns 0. */
  method PrintMultiple(inventory: List<Device>, paths: seq<string>, verbose: bool, mode: int)
    returns (code: int, output: string)
    requires inventory.Valid()
    ensures code == 0
    ensures output == Listing(PrintSelection(inventory.contents, paths), verbose, mode)
  {
    var devices := inventory.Items();
    var toPrint := new List<Device>();
    var i := 0;
    assert paths[..0] == [];
    while i < |paths|
      invariant 0 <= i <= |paths|
      invariant toPrint.Valid() && fresh(toPrint.Repr)
      invariant toPrint.contents == PrintSelection(devices, paths[..i])
    {
      SelectInto(devices, paths[i], toPrint);
      PrintSelectionStep(devices, paths, i);
      i := i + 1;
    }
    assert paths[..i] == paths;
    var selected := toPrint.Items();
    output := Render(selected, verbose, mode);
    code := 0;
  }

  /** The `printf` argument of the printing operations. */
  method Render(devices: seq<Device>, verbose: bool, mode: int) returns (output: string)
    ensures output == Listing(devices, verbose, mode)
  {
    if verbose {
      output := DetailString(devices, mode);
    } else {
      output := TableString(devices, mode);
    }
    output := output + "\n";
  }

  /** `usb_print`: `usb_print_multiple` with one argument. */
  method Print(inventory: List<Device>, path: string, verbose: bool, mode: int) returns (code: int, output: string)
    requires inventory.Valid()
    ensures code == 0
    ensures output == Listing(PrintSelection(inventory.contents, [path]), verbose, mode)
  {
    code, output := PrintMultiple(inventory, [path], verbose, mode);
  }

  /** `usb_print_all`: renders the whole inventory. */
  method PrintAll(inventory: List<Device>, verbose: bool, mode: int) returns (code: int, output: string)
    requires inventory.Valid()
    ensures code == 0
    ensures output == Listing(inventory.contents, verbose, mode)
  {
    var devices := inventory.Items();
    output := Render(devices, verbose, mode);
    code := 0;
  }
}
