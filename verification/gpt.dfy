/** `Config.GptSetup` (system/system.go:441-503): wipe the disk, write a GUID
    partition table with one `sgdisk` call, then wait for the root partition's
    device node to appear.
 */
module Gpt {
  import opened Outcomes
  import opened Text
  import opened Process
  import opened SystemConfig

  /** One partition table entry: `sgdisk` size, type code and partition name. */
  datatype Partition = Partition(size: string, typecode: string, name: string)

  /** The entries in the order `GptSetup` appends them: EFI (+64M, or +256M
      with OS X), the optional OS X and recovery pair, the optional swap, and
      the root taking the rest of the disk; so 2 + 2·[OS X] + [swap] entries. */
  function Layout(c: Config): (l: seq<Partition>)
    ensures |l| == 2 + (if c.enableOSX then 2 else 0) + (if c.swap.Some? then 1 else 0)
    ensures l[0] == Partition(if c.enableOSX then "+256M" else "+64M", "ef00", c.efi.name)
    ensures l[|l| - 1] == Partition("0", "8300", c.root.name)
    ensures c.enableOSX ==>
      l[1] == Partition("+30G", "af00", Label(c, "osx")) && l[2] == Partition("+620M", "ab00", Label(c, "recovery"))
    ensures c.swap.Some? ==> l[|l| - 2] == Partition("+4G", "8200", c.swap.value.name)
  {
    [Partition(if c.enableOSX then "+256M" else "+64M", "ef00", c.efi.name)]
    + (if c.enableOSX
       then [Partition("+30G", "af00", Label(c, "osx")), Partition("+620M", "ab00", Label(c, "recovery"))]
       else [])
    + (if c.swap.Some? then [Partition("+4G", "8200", c.swap.value.name)] else [])
    + [Partition("0", "8300", c.root.name)]
  }

  /** The `entry` closure's arguments for partition number `n`. */
  function Entry(n: nat, p: Partition): seq<string>
  {
    [ "--new", NatToString(n) + ":0:" + p.size,
      "--typecode", NatToString(n) + ":" + p.typecode,
      "--change-name", NatToString(n) + ":" + p.name ]
  }

  /** The arguments for `ps`, numbered from `first` on, one number per entry,
      as the closure's shared `part` counter does. */
  function Entries(ps: seq<Partition>, first: nat): (r: seq<string>)
    ensures |r| == 6 * |ps|
  {
    if |ps| == 0 then []
    else Entry(first, ps[0]) + Entries(ps[1..], first + 1)
  }

  /** Partition j's six arguments are exactly its `entry` arguments under
      number first + j: the counter advances once per partition. */
  lemma {:induction false} EntriesNumbered(ps: seq<Partition>, first: nat, j: nat)
    requires j < |ps|
    ensures Entries(ps, first)[6 * j .. 6 * j + 6] == Entry(first + j, ps[j])
    decreases j
  {
    if j > 0 {
      var head, rest := Entry(first, ps[0]), Entries(ps[1..], first + 1);
      assert Entries(ps, first) == head + rest;
      EntriesNumbered(ps[1..], first + 1, j - 1);
      ShiftedEntry(ps, first, j);
      NextBlock(head, rest, Entry(first + j, ps[j]), j);
    }
  }

  /** Entry j - 1 of the tail, numbered from first + 1, is entry j of the whole list. */
  lemma ShiftedEntry(ps: seq<Partition>, first: nat, j: nat)
    requires 0 < j < |ps|
    ensures Entry(first + 1 + (j - 1), ps[1..][j - 1]) == Entry(first + j, ps[j])
  {
    assert ps[1..][j - 1] == ps[j];
  }

  /** Block j of `head + rest`, with a six-element head, is block j - 1 of `rest`. */
  lemma NextBlock<T>(head: seq<T>, rest: seq<T>, block: seq<T>, j: nat)
    requires |head| == 6 && 1 <= j && 6 * j + 6 <= |head| + |rest|
    requires rest[6 * (j - 1) .. 6 * (j - 1) + 6] == block
    ensures (head + rest)[6 * j .. 6 * j + 6] == block
  {
    assert (head + rest)[6 * j .. 6 * j + 6] == rest[6 * (j - 1) .. 6 * (j - 1) + 6];
  }

  /** The arguments of the partitioning `sgdisk` call: the entries numbered
      from 1, then the disk. */
  function GptArgs(c: Config): seq<string>
  {
    Entries(Layout(c), 1) + [c.disk]
  }

  /** Partition N (counting from 1) is described by exactly `--new N:0:size`,
      `--typecode N:code`, `--change-name N:name`, at argument positions 6(N-1)
      to 6N-1, and the disk is the last argument. */
  lemma GptArgsNumbering(c: Config)
    ensures |GptArgs(c)| == 6 * |Layout(c)| + 1
    ensures GptArgs(c)[|GptArgs(c)| - 1] == c.disk
    ensures forall n :: 1 <= n <= |Layout(c)| ==> GptArgs(c)[6 * (n - 1) .. 6 * n] == Entry(n, Layout(c)[n - 1])
  {
    EntriesThenDisk(Layout(c), c.disk);
  }

  /** The numbering of `Entries` from 1 survives appending the disk. */
  lemma EntriesThenDisk(ps: seq<Partition>, disk: string)
    ensures forall n :: 1 <= n <= |ps| ==> (Entries(ps, 1) + [disk])[6 * (n - 1) .. 6 * n] == Entry(n, ps[n - 1])
  {
    forall n | 1 <= n <= |ps|
      ensures (Entries(ps, 1) + [disk])[6 * (n - 1) .. 6 * n] == Entry(n, ps[n - 1])
    {
      EntryBlock(ps, disk, n);
    }
  }

  lemma EntryBlock(ps: seq<Partition>, disk: string, n: nat)
    requires 1 <= n <= |ps|
    ensures (Entries(ps, 1) + [disk])[6 * (n - 1) .. 6 * n] == Entry(n, ps[n - 1])
  {
    NumberedFromOne(ps, n);
    BlockBeforeLast(Entries(ps, 1), disk, Entry(n, ps[n - 1]), n);
  }

  /** `EntriesNumbered` for the numbering from 1 that `GptSetup` uses. */
  lemma NumberedFromOne(ps: seq<Partition>, n: nat)
    requires 1 <= n <= |ps|
    ensures 6 * n <= |Entries(ps, 1)|
    ensures Entries(ps, 1)[6 * (n - 1) .. 6 * (n - 1) + 6] == Entry(n, ps[n - 1])
  {
    EntriesNumbered(ps, 1, n - 1);
    SameEntry(1 + (n - 1), n, ps[n - 1]);
  }

  /** Equal numbers give equal entries. */
  lemma SameEntry(m: nat, n: nat, p: Partition)
    requires m == n
    ensures Entry(m, p) == Entry(n, p)
  {
  }

  /** Appending one element leaves every six-element block in place. */
  lemma BlockBeforeLast<T>(a: seq<T>, last: T, block: seq<T>, n: nat)
    requires 1 <= n && 6 * n <= |a| && a[6 * (n - 1) .. 6 * (n - 1) + 6] == block
    ensures (a + [last])[6 * (n - 1) .. 6 * n] == block
  {
    assert (a + [last])[6 * (n - 1) .. 6 * n] == a[6 * (n - 1) .. 6 * n];
  }

  /** How `sgdisk` reads a numbered argument: the digits before the first
      colon name partition `n`. */
  predicate NumberedBy(arg: string, n: nat) {
    var f := Split(arg, ':')[0];
    IsDigits(f) && DigitsValue(f) == n
  }

  /** The number `entry` prints in front of a colon reads back as `n`. */
  lemma NumberReadsBack(n: nat, rest: string)
    ensures NumberedBy(NatToString(n) + ":" + rest, n)
  {
    var digits := NatToString(n);
    DigitsExclude(digits, ':');
    assert digits + ":" + rest == digits + [':'] + rest;
    SplitFirstField(digits, rest, ':');
    NatToStringRoundTrip(n);
  }

  /** The three numbered arguments of `entry` for partition `n` read back
      as `n`. */
  lemma EntryNumbersReadBack(n: nat, p: Partition)
    ensures NumberedBy(Entry(n, p)[1], n) && NumberedBy(Entry(n, p)[3], n) && NumberedBy(Entry(n, p)[5], n)
  {
    var e := Entry(n, p);
    assert e[1] == NatToString(n) + ":" + ("0:" + p.size);
    NumberReadsBack(n, "0:" + p.size);
    NumberReadsBack(n, p.typecode);
    NumberReadsBack(n, p.name);
  }

  /** The six arguments that describe partition `n` (counting from 1). */
  function PartitionArgs(c: Config, n: nat): seq<string>
    requires 1 <= n <= |Layout(c)|
  {
    GptArgsNumbering(c);
    GptArgs(c)[6 * (n - 1) .. 6 * n]
  }

  /** Every numbered argument of the `sgdisk` call names the partition it
      describes: the `--new`, `--typecode` and `--change-name` values of
      partition N all read back as N. */
  lemma GptArgsNumbersReadBack(c: Config)
    ensures forall n :: 1 <= n <= |Layout(c)| ==>
      && |PartitionArgs(c, n)| == 6
      && NumberedBy(PartitionArgs(c, n)[1], n)
      && NumberedBy(PartitionArgs(c, n)[3], n)
      && NumberedBy(PartitionArgs(c, n)[5], n)
  {
    GptArgsNumbering(c);
    forall n | 1 <= n <= |Layout(c)|
      ensures |PartitionArgs(c, n)| == 6
      ensures NumberedBy(PartitionArgs(c, n)[1], n)
      ensures NumberedBy(PartitionArgs(c, n)[3], n)
      ensures NumberedBy(PartitionArgs(c, n)[5], n)
    {
      assert PartitionArgs(c, n) == Entry(n, Layout(c)[n - 1]);
      EntryNumbersReadBack(n, Layout(c)[n - 1]);
    }
  }

  const StartMs: nat := 1
  const SleepMs: nat := 50
  const MaxMs: nat := 2000

  /** The most `os.Stat` probes the wait loop makes. */
  const MaxProbes: nat := 41

  /** One `os.Stat` of the root device: found, not there yet, or another error
      (which the loop returns as it is). */
  datatype Probe = Present | Missing | StatFailed(id: nat)

  datatype Wait = Wait(probes: nat, result: Outcome)

  /** The wait loop from probe `k` on, its millisecond counter at `current`
      (the time.Duration counter, to the millisecond). `probe(k)` is what the
      k-th `os.Stat` reports; the sleep between probes is not modelled. */
  function WaitFrom(device: string, probe: nat -> Probe, k: nat, current: nat): (w: Wait)
    requires current == StartMs + k * SleepMs && current <= MaxMs + SleepMs
    ensures k < w.probes <= MaxProbes
    ensures forall j :: k <= j < w.probes - 1 ==> probe(j) == Missing
    ensures w.result.Ok? <==> probe(w.probes - 1) == Present
    ensures probe(w.probes - 1).StatFailed? ==> w.result == Fail(Opaque(probe(w.probes - 1).id))
    ensures probe(w.probes - 1) == Missing ==> w.probes == MaxProbes && w.result == Fail(FailedToFind(device))
    decreases MaxMs + SleepMs - current
  {
    match probe(k)
    case Present => Wait(k + 1, Ok)
    case StatFailed(id) => Wait(k + 1, Fail(Opaque(id)))
    case Missing =>
      if current > MaxMs then Wait(k + 1, Fail(FailedToFind(device)))
      else WaitFrom(device, probe, k + 1, current + SleepMs)
  }

  /** The device-wait loop of `GptSetup`, starting at 1ms. */
  function WaitForDevice(device: string, probe: nat -> Probe): Wait
  {
    WaitFrom(device, probe, 0, StartMs)
  }

  /** The loop always ends within 41 probes; it reports "failed to find"
      exactly when all 41 find the device missing, succeeds exactly when the
      device shows up before that with no other error first. */
  lemma WaitTerminates(device: string, probe: nat -> Probe)
    ensures WaitForDevice(device, probe).probes <= MaxProbes
    ensures WaitForDevice(device, probe).result == Fail(FailedToFind(device)) <==>
      forall j :: 0 <= j < MaxProbes ==> probe(j) == Missing
    ensures WaitForDevice(device, probe).result.Ok? <==>
      exists k :: 0 <= k < MaxProbes && probe(k) == Present && forall j :: 0 <= j < k ==> probe(j) == Missing
  {
    var w := WaitForDevice(device, probe);
    var last := w.probes - 1;
    if forall j :: 0 <= j < MaxProbes ==> probe(j) == Missing {
      assert probe(last) == Missing;
    }
    if exists k :: 0 <= k < MaxProbes && probe(k) == Present && forall j :: 0 <= j < k ==> probe(j) == Missing {
      var k :| 0 <= k < MaxProbes && probe(k) == Present && forall j :: 0 <= j < k ==> probe(j) == Missing;
      assert probe(last) != Missing;
      assert last >= k;
      assert probe(k) != Missing;
      assert k >= last;
    }
  }

  /** `GptSetup`: refuse an empty disk before issuing anything, zap the disk,
      create the table, then wait for the root device. */
  function GptSetup(c: Config, shell: Shell, probe: nat -> Probe): (t: Transcript)
    ensures c.disk == "" <==> t.issued == []
    ensures c.disk == "" ==> t.result == Fail(NoDiskSpecified)
    ensures c.disk != "" ==> t.issued[0] == Command(["sgdisk", "--zap-all", c.disk])
    ensures |t.issued| <= 2
    ensures |t.issued| == 2 ==> shell(t.issued[0]).Ok? && t.issued[1] == Command(["sgdisk"] + GptArgs(c))
    ensures |t.issued| == 2 && shell(t.issued[1]).Ok? ==> t.result == WaitForDevice(c.root.device, probe).result
    ensures |t.issued| > 0 && shell(t.issued[|t.issued| - 1]).Fail? ==> t.result == shell(t.issued[|t.issued| - 1])
    ensures t.result.Ok? ==> |t.issued| == 2
    ensures c.disk != "" && shell(Command(["sgdisk", "--zap-all", c.disk])).Ok? ==> |t.issued| == 2
    ensures |t.issued| == 1 ==> shell(t.issued[0]).Fail?
  {
    if c.disk == "" then Nothing(Fail(NoDiskSpecified))
    else
      var zap := Command(["sgdisk", "--zap-all", c.disk]);
      if shell(zap).Fail? then Transcript([zap], shell(zap))
      else
        var create := Command(["sgdisk"] + GptArgs(c));
        if shell(create).Fail? then Transcript([zap, create], shell(create))
        else Transcript([zap, create], WaitForDevice(c.root.device, probe).result)
  }

  /** The configuration `create` builds: `New`, then the disk, the OS X flag and
      optionally swap. */
  function CreateConfig(name: string, disk: string, osx: bool, swap: bool): Config
    requires PlainName(name)
  {
    var c := New(name).(disk := disk, enableOSX := osx);
    if swap then EnableSwap(c) else c
  }

  /** When every disk is named by `Label`, no two partitions share a name. */
  lemma PartitionNamesDistinct(c: Config)
    requires c.efi.name == Label(c, "efi") && c.root.name == Label(c, "root")
    requires c.swap.Some? ==> c.swap.value.name == Label(c, "swap")
    ensures var l := Layout(c); forall i, j :: 0 <= i < j < |l| ==> l[i].name != l[j].name
  {
    var l, things := Layout(c), Things(c);
    LayoutNamedByThings(c);
    ThingsDistinct(c);
    forall i, j | 0 <= i < j < |l|
      ensures l[i].name != l[j].name
    {
      LabelsDistinct(c, things[i], things[j]);
    }
  }

  /** What each partition of the layout is, in `label`'s terms. */
  function Things(c: Config): seq<string> {
    ["efi"] + (if c.enableOSX then ["osx", "recovery"] else [])
    + (if c.swap.Some? then ["swap"] else []) + ["root"]
  }

  /** Each partition is named by `Label` of what it is. */
  lemma LayoutNamedByThings(c: Config)
    requires c.efi.name == Label(c, "efi") && c.root.name == Label(c, "root")
    requires c.swap.Some? ==> c.swap.value.name == Label(c, "swap")
    ensures |Things(c)| == |Layout(c)|
    ensures forall i :: 0 <= i < |Layout(c)| ==> Layout(c)[i].name == Label(c, Things(c)[i])
  {
  }

  /** No partition kind appears twice in the layout. */
  lemma ThingsDistinct(c: Config)
    ensures forall i, j :: 0 <= i < j < |Things(c)| ==> Things(c)[i] != Things(c)[j]
  {
  }

  /** For a configuration built by the naming rules, the partition names are
      pairwise distinct and the devices the disks use are the by-partlabel
      paths of the partitions the table creates: the root device the wait loop
      looks for is that of the last partition. */
  lemma DevicesNamePartitions(name: string, disk: string, osx: bool, swap: bool)
    requires PlainName(name)
    ensures var c := CreateConfig(name, disk, osx, swap); var l := Layout(c);
      && (forall i, j :: 0 <= i < j < |l| ==> l[i].name != l[j].name)
      && c.root.device == PartLabelDir + "/" + l[|l| - 1].name
      && c.efi.device == PartLabelDir + "/" + l[0].name
      && (swap ==> c.swap.value.device == PartLabelDir + "/" + l[|l| - 2].name)
  {
    var c := CreateConfig(name, disk, osx, swap);
    PartitionNamesDistinct(c);
  }
}
