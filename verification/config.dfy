/** The system description of system/system.go and its naming rules.

    Go's pointers that are never nil in practice (`Root`, `EFI`, `VirtualFS`)
    are plain fields here; `Swap` really may be nil and is an `Option`. A file
    system type is Go's `FSType` string, where "" means not yet known.
 */
module SystemConfig {
  import opened Outcomes
  import opened Text

  const Ext4: string := "ext4"
  const Btrfs: string := "btrfs"

  /** Name of the btrfs subvolume that is mounted as the root. */
  const BtrfsActive: string := "__active"

  const PartLabelDir: string := "/dev/disk/by-partlabel"
  const MapperDir: string := "/dev/mapper"
  const MountDir: string := "/mnt"

  datatype EncryptedDisk = EncryptedDisk(
    name: string, fsType: string, device: string, password: string, mapper: string, dir: string)

  datatype EFIDisk = EFIDisk(name: string, device: string, dir: string)

  datatype SwapDisk = SwapDisk(name: string, device: string, mapper: string, rootName: string)

  datatype VirtualFS = VirtualFS(dir: string)

  datatype Config = Config(
    name: string, disk: string,
    root: EncryptedDisk, efi: EFIDisk, swap: Option<SwapDisk>, virtualFS: VirtualFS,
    enableOSX: bool)

  /** `Config.label`: a name derived from the system name. */
  function Label(c: Config, thing: string): (r: string)
    ensures |r| == |c.name| + 1 + |thing|
    ensures r[..|c.name|] == c.name && r[|c.name|] == '-' && r[|c.name| + 1..] == thing
  {
    c.name + "-" + thing
  }

  /** `New`: a configuration laid out by the standard naming rules, for a
      system name that is a single plain path element. */
  function New(name: string): (c: Config)
    requires PlainName(name)
    ensures c.name == name && c.disk == "" && c.swap.None? && !c.enableOSX
    ensures c.root.name == Label(c, "root") && c.efi.name == Label(c, "efi")
    ensures c.root.device == PartLabelDir + "/" + c.root.name
    ensures c.efi.device == PartLabelDir + "/" + c.efi.name
    ensures c.root.mapper == MapperDir + "/" + c.root.name
    ensures c.root.dir == MountDir + "/" + name
    ensures c.efi.dir == c.root.dir + "/boot/efi"
    ensures c.virtualFS.dir == c.root.dir
    ensures c.root.fsType == "" && c.root.password == ""
  {
    var rootName := name + "-root";
    var efiName := name + "-efi";
    var dir := Join(MountDir, name);
    var root := EncryptedDisk(rootName, "", Join(PartLabelDir, rootName), "", Join(MapperDir, rootName), dir);
    var efi := EFIDisk(efiName, Join(PartLabelDir, efiName), Join(Join(MountDir, name), "boot/efi"));
    assert root.device == PartLabelDir + "/" + rootName && root.mapper == MapperDir + "/" + rootName;
    assert efi.device == PartLabelDir + "/" + efiName && efi.dir == dir + "/boot/efi";
    Config(name, "", root, efi, None, VirtualFS(dir), false)
  }

  /** `Config.EnableSwap`: adds a swap partition named after the system, whose
      key is read from the root mapping. Nothing else changes. */
  function EnableSwap(c: Config): (r: Config)
    requires PlainName(c.name)
    ensures r.swap.Some?
    ensures r.swap.value.name == Label(c, "swap")
    ensures r.swap.value.rootName == c.root.name
    ensures r.swap.value.device == PartLabelDir + "/" + r.swap.value.name
    ensures r.swap.value.mapper == MapperDir + "/" + r.swap.value.name
    ensures r == c.(swap := r.swap)
  {
    var name := c.name + "-swap";
    c.(swap := Some(SwapDisk(name, Join(PartLabelDir, name), Join(MapperDir, name), c.root.name)))
  }

  /** Distinct things get distinct labels. */
  lemma LabelsDistinct(c: Config, a: string, b: string)
    requires a != b
    ensures Label(c, a) != Label(c, b)
  {
    assert Label(c, a)[|c.name| + 1..] == a;
    assert Label(c, b)[|c.name| + 1..] == b;
  }
}
