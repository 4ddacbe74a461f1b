/** The disk operations of system/system.go whose behaviour is decided by the
    configuration: the file system dispatch of the encrypted root disk, and the
    swap disk, whose every operation does nothing on a nil receiver and whose
    LUKS key is read back from the root mapping with `dmsetup`.

    Commands whose text output the code reads (`lsblk`, `dmsetup`) appear in a
    transcript like any other command; what they print, or the error they
    fail with, is a parameter.
 */
module Disks {
  import opened Outcomes
  import opened Text
  import opened Process
  import opened SystemConfig

  // ---------------------------------------------------------------------------
  // EncryptedDisk.MakeFS and EncryptedDisk.Mount
  // ---------------------------------------------------------------------------

  /** The mkfs binary for a root file system type; only btrfs and ext4 are
      supported. */
  function MkfsBinary(fsType: string): (bin: Option<string>)
    ensures bin.Some? <==> fsType == Btrfs || fsType == Ext4
    ensures fsType == Btrfs ==> bin == Some("mkfs.btrfs")
    ensures fsType == Ext4 ==> bin == Some("mkfs.ext4")
  {
    if fsType == Btrfs then Some("mkfs.btrfs")
    else if fsType == Ext4 then Some("mkfs.ext4")
    else None
  }

  /** `mountBtrfsRoot`'s mount of the whole btrfs volume on a temporary dir. */
  function MountBtrfsRootCmd(device: string, dir: string): Cmd {
    Command(["mount", "-t", Btrfs, "-o", "noatime,compress=lzo", device, dir])
  }

  function UmountCmd(dir: string): Cmd {
    Command(["umount", dir])
  }

  /** The subvolume that `MakeFS` creates inside a mounted btrfs root. */
  function CreateActiveCmd(dir: string): Cmd {
    Command(["btrfs", "subvolume", "create", Join(dir, BtrfsActive)])
  }

  /** `EncryptedDisk.MakeFS`. An unknown type fails before anything runs. For
      btrfs the volume is then mounted on `tempDir` (what ioutil.TempDir
      returns), the `__active` subvolume is created, and the deferred unmount
      runs whatever the creation returned; its own error is dropped. */
  function MakeFS(d: EncryptedDisk, tempDir: Result<string>, shell: Shell): (t: Transcript)
    ensures MkfsBinary(d.fsType).None? <==> t.issued == []
    ensures MkfsBinary(d.fsType).None? ==> t.result == Fail(UnknownFileSystem(d.fsType))
    ensures MkfsBinary(d.fsType).Some? ==>
      t.issued[0] == Command([MkfsBinary(d.fsType).value, "-L", d.name, d.mapper])
    ensures |t.issued| == 1 && shell(t.issued[0]).Fail? ==> t.result == shell(t.issued[0])
    ensures |t.issued| == 2 ==> t.result == shell(t.issued[1])
    ensures d.fsType == Btrfs && shell(Command(["mkfs.btrfs", "-L", d.name, d.mapper])).Ok? && tempDir.Failed? ==>
      t == Transcript([Command(["mkfs.btrfs", "-L", d.name, d.mapper])], Fail(tempDir.error))
    ensures d.fsType != Btrfs ==> |t.issued| <= 1
    ensures d.fsType == Btrfs && shell(Command(["mkfs.btrfs", "-L", d.name, d.mapper])).Ok? && tempDir.Got? ==>
      |t.issued| >= 2
    ensures |t.issued| > 1 ==>
      shell(t.issued[0]).Ok? && tempDir.Got? && t.issued[1] == MountBtrfsRootCmd(d.mapper, tempDir.value)
    ensures |t.issued| > 2 ==>
      && shell(t.issued[1]).Ok?
      && t.issued[2..] == [CreateActiveCmd(tempDir.value), UmountCmd(tempDir.value)]
      && t.result == shell(t.issued[2])
    ensures t.result.Ok? <==>
      MkfsBinary(d.fsType).Some? && shell(t.issued[0]).Ok?
      && (d.fsType == Btrfs ==> |t.issued| == 4 && shell(t.issued[2]).Ok?)
  {
    match MkfsBinary(d.fsType)
    case None => Nothing(Fail(UnknownFileSystem(d.fsType)))
    case Some(bin) =>
      var mkfs := Command([bin, "-L", d.name, d.mapper]);
      if shell(mkfs).Fail? then Transcript([mkfs], shell(mkfs))
      else if d.fsType != Btrfs then Transcript([mkfs], Ok)
      else
        match tempDir
        case Failed(e) => Transcript([mkfs], Fail(e))
        case Got(dir) =>
          var mount := MountBtrfsRootCmd(d.mapper, dir);
          if shell(mount).Fail? then Transcript([mkfs, mount], shell(mount))
          else
            var create := CreateActiveCmd(dir);
            Transcript([mkfs, mount, create, UmountCmd(dir)], shell(create))
  }

  /** The btrfs mount options up to the subvolume's name. */
  const SubvolPrefix := "noatime" + ",compress=lzo,subvol="

  /** Mount options for a root file system type: btrfs roots are compressed
      and mount the `__active` subvolume. */
  function MountOptions(fsType: string): string
  {
    if fsType == Btrfs then SubvolPrefix + BtrfsActive else "noatime"
  }

  function MountCmd(d: EncryptedDisk): Cmd {
    Command(["mount", "-t", d.fsType, "-o", MountOptions(d.fsType), d.mapper, d.dir])
  }

  function LsblkCmd(mapper: string): Cmd {
    Command(["lsblk", "--noheadings", "--output", "fstype", mapper])
  }

  datatype Mounted = Mounted(disk: EncryptedDisk, transcript: Transcript)

  /** `EncryptedDisk.Mount`. `mkdir` is what creating the mount point returns,
      `lsblk` the trimmed type lsblk reports (or its failure); the type is
      looked up, and remembered in the disk, only when it is not set. */
  function Mount(d: EncryptedDisk, mkdir: Outcome, lsblk: Result<string>, shell: Shell): (m: Mounted)
    ensures m.disk == d.(fsType := m.disk.fsType)
    ensures d.fsType != "" ==> m.disk == d
    ensures mkdir.Fail? || (d.fsType == "" && lsblk.Failed?) ==> m.disk == d
    ensures mkdir.Fail? ==> m.transcript == Transcript([], mkdir)
    ensures mkdir.Ok? && d.fsType == "" ==> |m.transcript.issued| > 0 && m.transcript.issued[0] == LsblkCmd(d.mapper)
    ensures mkdir.Ok? && d.fsType == "" && lsblk.Failed? ==>
      m.transcript == Transcript([LsblkCmd(d.mapper)], Fail(CommandFailed(LsblkCmd(d.mapper).argv, lsblk.error)))
    ensures mkdir.Ok? && d.fsType != "" ==> m.transcript.issued == [MountCmd(d)]
    ensures mkdir.Ok? && d.fsType == "" && lsblk.Got? ==>
      m.transcript.issued == [LsblkCmd(d.mapper), MountCmd(m.disk)]
    ensures mkdir.Ok? && (d.fsType != "" || lsblk.Got?) ==>
      && m.disk.fsType == (if d.fsType != "" then d.fsType else lsblk.value)
      && |m.transcript.issued| > 0
      && m.transcript.issued[|m.transcript.issued| - 1] == MountCmd(m.disk)
      && m.transcript.result == shell(MountCmd(m.disk))
  {
    if mkdir.Fail? then Mounted(d, Nothing(mkdir))
    else if d.fsType == "" then
      var query := LsblkCmd(d.mapper);
      match lsblk
      case Failed(e) => Mounted(d, Transcript([query], Fail(CommandFailed(query.argv, e))))
      case Got(fsType) =>
        var typed := d.(fsType := fsType);
        Mounted(typed, Transcript([query, MountCmd(typed)], shell(MountCmd(typed))))
    else Mounted(d, Transcript([MountCmd(d)], shell(MountCmd(d))))
  }

  /** What `Mount` mounts of a btrfs root is the subvolume `MakeFS` created:
      when `MakeFS` got as far as creating the subvolume in `dir`, the path it
      created is `dir` joined with exactly the `subvol=` value of the mount
      options `Mount` passes for the same disk. Other types mount with plain
      `noatime`. */
  lemma MountUsesCreatedSubvolume(d: EncryptedDisk, dir: string, shell: Shell)
    ensures var t := MakeFS(d, Got(dir), shell);
      var opts := MountCmd(d).argv[4];
      |t.issued| == 4 ==>
        && |SubvolPrefix| <= |opts|
        && opts[..|SubvolPrefix|] == SubvolPrefix
        && t.issued[2].argv[3] == Join(dir, opts[|SubvolPrefix|..])
    ensures d.fsType != Btrfs ==> MountCmd(d).argv[4] == "noatime"
  {
    var t := MakeFS(d, Got(dir), shell);
    if |t.issued| == 4 {
      CreatesActive(d, dir, shell);
      BtrfsOptions(d);
    }
  }

  /** Only a btrfs `MakeFS` reaches its third command, the subvolume creation. */
  lemma CreatesActive(d: EncryptedDisk, dir: string, shell: Shell)
    requires |MakeFS(d, Got(dir), shell).issued| == 4
    ensures d.fsType == Btrfs
    ensures MakeFS(d, Got(dir), shell).issued[2] == CreateActiveCmd(dir)
  {
    var t := MakeFS(d, Got(dir), shell);
    assert t.issued[2] == t.issued[2..][0];
  }

  /** A btrfs root's mount options end in the `__active` subvolume's name. */
  lemma BtrfsOptions(d: EncryptedDisk)
    requires d.fsType == Btrfs
    ensures var opts := MountCmd(d).argv[4];
      |SubvolPrefix| <= |opts| && opts[..|SubvolPrefix|] == SubvolPrefix && opts[|SubvolPrefix|..] == BtrfsActive
  {
    ConcatParts(SubvolPrefix, BtrfsActive);
  }

  /** Slicing a concatenation at the seam gives back its two parts. */
  lemma ConcatParts<T>(a: seq<T>, b: seq<T>)
    ensures (a + b)[..|a|] == a && (a + b)[|a|..] == b
  {
  }

  // ---------------------------------------------------------------------------
  // SwapDisk
  // ---------------------------------------------------------------------------

  function DmsetupCmd(s: SwapDisk): Cmd {
    Command(["dmsetup", "--showkeys", "table", s.rootName])
  }

  /** The key field of a `dmsetup table` line: the fifth space-separated
      field, when there are at least five. */
  function ParseKey(out: string): (r: Result<string>)
    ensures r.Got? <==> Count(out, ' ') >= 4
    ensures r.Got? ==> |Split(out, ' ')| >= 5 && r.value == Split(out, ' ')[4] && ' ' !in r.value
    ensures r.Failed? ==> r.error == KeyNotFound(out)
  {
    SplitCount(out, ' ');
    var parts := Split(out, ' ');
    if |parts| < 5 then Failed(KeyNotFound(out)) else Got(parts[4])
  }

  /** `SwapDisk.key`: a failure of `dmsetup` itself is returned unwrapped. */
  function Key(s: SwapDisk, dmsetup: Result<string>): Result<string>
  {
    match dmsetup
    case Failed(e) => Failed(e)
    case Got(out) => ParseKey(out)
  }

  /** The key `SwapDisk.key` finds is a field of the dmsetup output: putting
      the fields back together with single spaces gives that output again. */
  lemma KeyIsFieldOfOutput(out: string)
    requires ParseKey(out).Got?
    ensures var parts := Split(out, ' ');
      |parts| >= 5 && parts[4] == ParseKey(out).value && JoinWith(parts, ' ') == out
  {
    SplitCount(out, ' ');
    SplitJoinRoundTrip(out, ' ');
  }

  function LuksFormatCmd(device: string, key: string): Cmd {
    Cmd(["cryptsetup", "luksFormat",
         "--cipher", "aes-xts-plain64",
         "--key-size", "512",
         "--hash", "sha512",
         "--iter-time", "5000",
         "--use-random",
         device], key)
  }

  function LuksOpenCmd(device: string, name: string, key: string): Cmd {
    Cmd(["cryptsetup", "open", "--type", "luks", device, name], key)
  }

  /** `SwapDisk.LuksFormat`: nothing for a nil swap; otherwise read the key,
      then format the device with the key on standard input. */
  function SwapLuksFormat(d: Option<SwapDisk>, dmsetup: Result<string>, shell: Shell): (t: Transcript)
    ensures d.None? <==> t.issued == []
    ensures d.None? ==> t.result == Ok
    ensures d.Some? ==> t.issued[0] == DmsetupCmd(d.value)
    ensures d.Some? && Key(d.value, dmsetup).Failed? ==>
      t == Transcript([DmsetupCmd(d.value)], Fail(Key(d.value, dmsetup).error))
    ensures d.Some? && Key(d.value, dmsetup).Got? ==>
      var cmd := LuksFormatCmd(d.value.device, Key(d.value, dmsetup).value);
      t == Transcript([DmsetupCmd(d.value), cmd], shell(cmd))
  {
    match d
    case None => Nothing(Ok)
    case Some(s) =>
      match Key(s, dmsetup)
      case Failed(e) => Transcript([DmsetupCmd(s)], Fail(e))
      case Got(key) =>
        var cmd := LuksFormatCmd(s.device, key);
        Transcript([DmsetupCmd(s), cmd], shell(cmd))
  }

  /** `SwapDisk.LuksOpen`: nothing for a nil swap; otherwise read the key,
      then open the device under the swap's name with the key on standard
      input. */
  function SwapLuksOpen(d: Option<SwapDisk>, dmsetup: Result<string>, shell: Shell): (t: Transcript)
    ensures d.None? <==> t.issued == []
    ensures d.None? ==> t.result == Ok
    ensures d.Some? ==> t.issued[0] == DmsetupCmd(d.value)
    ensures d.Some? && Key(d.value, dmsetup).Failed? ==>
      t == Transcript([DmsetupCmd(d.value)], Fail(Key(d.value, dmsetup).error))
    ensures d.Some? && Key(d.value, dmsetup).Got? ==>
      var cmd := LuksOpenCmd(d.value.device, d.value.name, Key(d.value, dmsetup).value);
      t == Transcript([DmsetupCmd(d.value), cmd], shell(cmd))
  {
    match d
    case None => Nothing(Ok)
    case Some(s) =>
      match Key(s, dmsetup)
      case Failed(e) => Transcript([DmsetupCmd(s)], Fail(e))
      case Got(key) =>
        var cmd := LuksOpenCmd(s.device, s.name, key);
        Transcript([DmsetupCmd(s), cmd], shell(cmd))
  }

  /** Issues one command and returns its outcome. */
  function Single(cmd: Cmd, shell: Shell): Transcript {
    Transcript([cmd], shell(cmd))
  }

  /** `SwapDisk.LuksClose`. */
  function SwapLuksClose(d: Option<SwapDisk>, shell: Shell): (t: Transcript)
    ensures d.None? <==> t.issued == []
    ensures d.None? ==> t.result == Ok
    ensures d.Some? ==> t.issued == [Command(["cryptsetup", "close", d.value.name])]
    ensures d.Some? ==> t.result == shell(t.issued[0])
  {
    match d
    case None => Nothing(Ok)
    case Some(s) => Single(Command(["cryptsetup", "close", s.name]), shell)
  }

  /** `SwapDisk.MakeFS`: the swap is labelled with its name and "-swap". */
  function SwapMakeFS(d: Option<SwapDisk>, shell: Shell): (t: Transcript)
    ensures d.None? <==> t.issued == []
    ensures d.None? ==> t.result == Ok
    ensures d.Some? ==> t.issued == [Command(["mkswap", "--label", d.value.name + "-swap", d.value.mapper])]
    ensures d.Some? ==> t.result == shell(t.issued[0])
  {
    match d
    case None => Nothing(Ok)
    case Some(s) => Single(Command(["mkswap", "--label", s.name + "-swap", s.mapper]), shell)
  }

  /** `SwapDisk.Mount`. */
  function SwapMount(d: Option<SwapDisk>, shell: Shell): (t: Transcript)
    ensures d.None? <==> t.issued == []
    ensures d.None? ==> t.result == Ok
    ensures d.Some? ==> t.issued == [Command(["swapon", d.value.mapper])]
    ensures d.Some? ==> t.result == shell(t.issued[0])
  {
    match d
    case None => Nothing(Ok)
    case Some(s) => Single(Command(["swapon", s.mapper]), shell)
  }

  /** `SwapDisk.Umount`. */
  function SwapUmount(d: Option<SwapDisk>, shell: Shell): (t: Transcript)
    ensures d.None? <==> t.issued == []
    ensures d.None? ==> t.result == Ok
    ensures d.Some? ==> t.issued == [Command(["swapoff", d.value.mapper])]
    ensures d.Some? ==> t.result == shell(t.issued[0])
  {
    match d
    case None => Nothing(Ok)
    case Some(s) => Single(Command(["swapoff", s.mapper]), shell)
  }

  /** With swap enabled, the swap operations fit together: the key is read
      from the root's mapping, `cryptsetup open` creates the mapping
      `/dev/mapper/<name>` that `mkswap`, `swapon` and `swapoff` then use, and
      `cryptsetup close` removes that same mapping. */
  lemma SwapStepsShareMapping(c: Config, dmsetup: Result<string>, shell: Shell)
    requires PlainName(c.name)
    requires Key(EnableSwap(c).swap.value, dmsetup).Got?
    ensures var d := EnableSwap(c).swap; var open := SwapLuksOpen(d, dmsetup, shell).issued;
      && open[0].argv == ["dmsetup", "--showkeys", "table", c.root.name]
      && |open| == 2 && open[1].argv[|open[1].argv| - 1] == d.value.name
      && SwapLuksClose(d, shell).issued[0].argv[2] == d.value.name
      && SwapMakeFS(d, shell).issued[0].argv[3] == MapperDir + "/" + d.value.name
      && SwapMount(d, shell).issued[0].argv[1] == MapperDir + "/" + d.value.name
      && SwapUmount(d, shell).issued[0].argv[1] == MapperDir + "/" + d.value.name
  {
  }
}
