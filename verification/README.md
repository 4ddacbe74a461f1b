# summon, modelled in Dafny

summon installs an encrypted Linux system onto a disk. `summon.go` turns a
command line into a list of steps, each a `Do` with an optional `Defer`
cleanup, and drives them: the `Do`s run in order until one fails, and the
cleanups of the steps that succeeded run afterwards, newest first. The
`system` package supplies those steps. It partitions the disk with
`sgdisk`, formats and mounts the LUKS root and the swap, and bind-mounts the
virtual file systems. Most external commands go through one `run` helper
that decides which error is returned. `identifyFSType` and the swap's `key`
query use `CombinedOutput` instead, and `Config.Exec` supervises its own
process.

This project models that sequential decision making:

- `outcomes.dfy` (`Outcomes`): the errors the code distinguishes, plus `Outcome`, `Result` and `Option`.
- `text.dfy` (`Text`): decimal formatting, `bytes.Split` on one character with its inverse, and `path.Join` on the clean paths the program builds.
- `steps.dfy` (`Steps`): the step driver.
  - `Loop` and `Unwind` are the Go code's own loop and defer stack.
  - `SpecRun` is a declarative reference definition built from the first failing step and the registered cleanups.
  - The two are proved equal, and every ordering property is proved through them.
  - Also here: the interrupt channels and `exec`'s prefix.
- `process.dfy` (`Process`): commands, the `Shell` that gives each command its outcome, transcripts of issued commands, running commands in order, and `run`'s error-selection rule.
- `config.dfy` (`SystemConfig`): the configuration records and the naming rules of `New`, `EnableSwap` and `label`.
- `gpt.dfy` (`Gpt`): the `sgdisk` argument builder of `GptSetup` and its device wait loop.
- `disks.dfy` (`Disks`): the file system dispatch of `EncryptedDisk.MakeFS` and `Mount`, and the `SwapDisk` operations with their nil guards and `dmsetup` key parsing.
- `virtualfs.dfy` (`VirtualFs`): the bind mounts of `VirtualFS` and their reverse unmounting.

External commands are not executed. A command is its argv plus its standard
input. The operating system is a parameter: a `Shell` mapping each command to
the outcome `run` reports for it. An operation is a function from that shell
to a `Transcript`, the commands it issued in order and the error it returned.
Other parameters stand for:

- the text of `lsblk` and `dmsetup` output;
- the `os.Stat` results of the wait loop;
- `os.MkdirAll` and `ioutil.TempDir`.

## Model

| member | source | states |
|---|---|---|
| Steps.LoggedDefer | summon.go:18-25 | A nil `Defer` produces no call. Otherwise the cleanup is called exactly once, first, with the given channel, and then its error is logged if and only if it failed. Nothing is ever returned. |
| Steps.RunStepsMatchesSpec | summon.go:127-135 | The Go code's loop with its defer stack equals the declarative run: the `Do`s up to the first failure, then the cleanups of the registered steps in reverse, returning the first `Do` error. |
| Steps.DosRunInOrderUntilFirstFailure | summon.go:128-131 | The `Do`s are called in list order, each once. Step j's `Do` is called if and only if every earlier `Do` succeeded. |
| Steps.ResultIsFirstDoError | summon.go:129-134 | The run succeeds if and only if every `Do` succeeds. Otherwise it returns the error of the first failing `Do`. |
| Steps.CleanupsRunOnceInReverse | summon.go:129-134 | Step j's cleanup runs if and only if j precedes the first failure and has a `Defer`. The failing step's cleanup never runs. Cleanup indices strictly decrease, and every cleanup gets `deferKill`. |
| Steps.TraceProjections | summon.go:127-135 | The `Do` calls are exactly steps 0 to the attempted count. The cleanup calls are the registered steps reversed. |
| Steps.ForwardPhaseThenCleanup | summon.go:127-135 | Every `Do` call, made with `kill`, precedes every cleanup call. |
| Steps.CleanupErrorsAreOnlyLogged | summon.go:18-25 | An error is logged for step j if and only if j's cleanup was registered and failed with that error. |
| Steps.CleanupOutcomesNeverMatter | summon.go:18-25 | Two runs that differ only in what their cleanups return have the same result, the same `Do` calls and the same cleanup calls. |
| Steps.RegisteredSteps | summon.go:129-132 | A step is registered if and only if its `Do` succeeded before the cut and it has a `Defer`. Registration order is increasing. |
| Steps.CleanupsEvents | summon.go:132 | The cleanup phase calls no `Do`, uses only `deferKill`, and logs exactly the failing cleanups. |
| Steps.RunWithSignal | summon.go:138-146 | `kill` is closed if and only if an interrupt arrived, and `deferKill` never is. The closure's error is returned either way. |
| Steps.CancellationNeverReachesCleanup | summon.go:123-124 | No cleanup is handed a closed channel. An interrupt closes `kill`. |
| Steps.ExecSteps | summon.go:109-119 | `exec` puts three steps before the caller's steps, which follow unchanged: Root.LuksOpen with cleanup Root.LuksClose, Root.Mount with Root.Umount, then EFI.Mount with EFI.Umount, each carrying its own outcome. |
| Steps.ExecUnwindsMountsLast | summon.go:109-119 | When the three mounts succeed, the last three cleanups are EFI.Umount, Root.Umount and Root.LuksClose, in that order, after every cleanup of the caller's steps. |
| Steps.ExecStopsWhenLuksOpenFails | summon.go:114 | If opening the LUKS device fails, that one `Do` is the whole trace and its error is the result. |
| Process.RunInOrder | system/system.go:369-381 | The issued commands are a prefix of the list. Every issued command but the last succeeded. The result is nil if and only if all commands were issued and succeeded. Otherwise it is the last issued command's error. |
| Process.Supervise | system/system.go:710-744 | Preset Stdout or Stderr is refused before the start. The process starts if and only if the checks pass and `Start` succeeds. A started process is always reaped, and is killed if and only if `kill` fired first. A wait error wins over the kill error. The result is nil exactly when wait succeeded and either the process exited first or the kill succeeded. |
| SystemConfig.Label | system/system.go:676-678 | The label is the system name, a dash, then the thing, each recoverable from the result. |
| SystemConfig.New | system/system.go:407-428 | Root and EFI are named `<name>-root` and `<name>-efi`. Their devices are under the by-partlabel directory, the root mapper is under `/dev/mapper`, the root is mounted at `/mnt/<name>` with EFI at its `boot/efi`, and the virtual file systems go under the root's directory. |
| SystemConfig.EnableSwap | system/system.go:431-439 | Adds a swap named by `label("swap")` whose key comes from the root's mapping, with by-partlabel device and mapper paths. Nothing else changes. |
| SystemConfig.LabelsDistinct | system/system.go:676-678 | Distinct things get distinct labels. |
| Gpt.Layout | system/system.go:462-476 | There are 2 + 2·[OS X] + [swap] partitions. EFI comes first with ef00, sized +256M with OS X and +64M otherwise. The OS X pair is +30G af00 named `label("osx")`, then +620M ab00 named `label("recovery")`. Swap is second to last with 8200. Root is last with size 0 and type 8300. |
| Gpt.EntriesNumbered | system/system.go:452-460 | The entries for a list of partitions, numbered from `first`, place partition j's six `entry` arguments under number first+j at positions 6j to 6j+5: the shared counter advances once per partition. |
| Gpt.GptArgsNumbering | system/system.go:452-476 | Partition N is described at argument positions 6(N-1) to 6N-1 by `--new N:0:size`, `--typecode N:code` and `--change-name N:name`. The disk is the last argument. |
| Gpt.EntryNumbersReadBack | system/system.go:453-459 | The `--new`, `--typecode` and `--change-name` values of `entry` for partition n each read back as n: the text before the first colon is digits denoting n. |
| Gpt.GptArgsNumbersReadBack | system/system.go:452-476 | In the full `sgdisk` argument list, the numbered values of partition N read back as N. Each number names the partition it describes. |
| Gpt.WaitFrom | system/system.go:483-500 | The loop makes between 1 and 41 probes. Every probe but the last found the device missing. It succeeds exactly when the last probe found the device, returns another stat error as is, and fails with "failed to find" only after the 41st miss. |
| Gpt.WaitTerminates | system/system.go:483-500 | At most 41 probes are made. The result is "failed to find" if and only if all 41 probes miss, and success if and only if the device appears before any other error. |
| Gpt.GptSetup | system/system.go:442-503 | An empty disk fails with no command issued. Otherwise the disk is zapped, the table is created from the built arguments, and the device is waited for. Each stage runs if and only if the previous one succeeded, and a failing command's error is returned. |
| Gpt.PartitionNamesDistinct | system/system.go:467-475 | With `label`-derived disk names, no two partitions share a name. |
| Gpt.DevicesNamePartitions | system/system.go:407-439 | For a configuration built by `New`, `EnableSwap` and `create`, the partition names are distinct. The root, EFI and swap devices are the by-partlabel paths of the last, first and second-to-last partitions. |
| Disks.MkfsBinary | system/system.go:81-90 | A mkfs binary exists if and only if the type is btrfs or ext4, namely mkfs.btrfs or mkfs.ext4. |
| Disks.MakeFS | system/system.go:80-113 | An unknown type fails with nothing issued. Otherwise mkfs runs first. A failing mkfs, temporary directory or btrfs root mount returns exactly its own error and stops there. Once mkfs.btrfs and the temporary directory succeed, the volume is always mounted on that directory. Only btrfs does this, then creates `__active` and unmounts. The result is then the creation's outcome, and the unmount's outcome never affects it. |
| Disks.Mount | system/system.go:116-142 | A mkdir failure issues nothing. A set type issues exactly the mount. An unset type issues exactly lsblk and then the mount, and a lookup failure stops before mounting. When mkdir or the lookup fails, the disk is returned unchanged. The known type is kept in the disk, and the mount's outcome is the result. No other field of the disk changes. |
| Disks.MountUsesCreatedSubvolume | system/system.go:96-130 | When `MakeFS` creates the subvolume in a directory, the path it creates is that directory joined with exactly the `subvol=` value of the options `Mount` uses for the same disk. Other types mount with plain `noatime`. |
| Disks.ParseKey | system/system.go:305-309 | A key is found if and only if the output has at least four single spaces, that is at least five fields. The key is the fifth field and holds no space. Otherwise the error carries the output. |
| Disks.KeyIsFieldOfOutput | system/system.go:299-310 | The key is the fifth of the fields that, joined back with single spaces, give the output again. |
| Disks.SwapLuksFormat | system/system.go:248-272 | A nil swap does nothing and succeeds. Otherwise the key query comes first, its failure stops the operation, and the format command gets the key on standard input. |
| Disks.SwapLuksOpen | system/system.go:275-296 | A nil swap does nothing and succeeds. Otherwise the key query comes first, its failure stops the operation, and the open command gets the key on standard input under the swap's name. |
| Disks.SwapLuksClose | system/system.go:313-322 | A nil swap does nothing and succeeds. Otherwise exactly `cryptsetup close <name>` is issued, and its outcome is the result. |
| Disks.SwapMakeFS | system/system.go:325-335 | A nil swap does nothing and succeeds. Otherwise exactly `mkswap --label <name>-swap <mapper>` is issued, and its outcome is the result. |
| Disks.SwapMount | system/system.go:338-347 | A nil swap does nothing and succeeds. Otherwise exactly `swapon <mapper>` is issued, and its outcome is the result. |
| Disks.SwapUmount | system/system.go:350-359 | A nil swap does nothing and succeeds. Otherwise exactly `swapoff <mapper>` is issued, and its outcome is the result. |
| Disks.SwapStepsShareMapping | system/system.go:299-359 | With swap enabled, the key is read from the root's mapping. The name the swap is opened under is the name it is closed under, and mkswap, swapon and swapoff all use that name's `/dev/mapper` path. |
| VirtualFs.MountPlanInOrder | system/system.go:369-375 | The i-th mount command binds `/p` onto `dir/p` for the i-th file system. |
| VirtualFs.UmountFromCountsDown | system/system.go:384-387 | The loop counting down from i issues, as its j-th command, the unmount of file system i-1-j. |
| VirtualFs.UmountPlanReversed | system/system.go:384-387 | The i-th unmount command acts on the i-th file system counted from the end. |
| VirtualFs.Mount | system/system.go:369-381 | Succeeds if and only if every bind was issued, in order, and succeeded. |
| VirtualFs.Umount | system/system.go:384-393 | Succeeds if and only if every unmount was issued, in reverse order, and succeeded. |
| VirtualFs.UmountTargetsReverseMountTargets | system/system.go:361-393 | The i-th unmount target is the target of the i-th mount counted from the end. |
| VirtualFs.MountsStayUnderDir | system/system.go:369-373 | Every mount point lies under the target directory, and the host path bound on it is `/p`. |
| VirtualFs.MountTargetsDistinct | system/system.go:361-375 | Distinct file system names are bound onto distinct mount points, so no bind mount hides another. |
| VirtualFs.NestedMountOrder | system/system.go:361 | `dev/pts` is mounted right after `dev` and unmounted right before it. |
| VirtualFs.MountThenUmount | system/system.go:361-393 | After a full mount and a full unmount, each of the four mount points is unmounted exactly once, in the opposite order. |
| Text.NatToStringRoundTrip | system/system.go:456-458 | The decimal partition numbers that `%d` produces read back as the number. |
| Text.JoinDistinct | system/system.go:372 | `path.Join` of one directory with two different clean names gives two different paths. |
| Text.SplitCount | system/system.go:305-306 | `bytes.Split` yields one more field than there are separators. |
| Text.SplitJoinRoundTrip | system/system.go:305 | Joining the fields of `bytes.Split` with the separator gives back the input. |

## Left out

- Executing commands is not modelled. This covers `exec.Command`, `Start`, `Wait` and `CombinedOutput`, whose outcomes are the `Shell` parameter. `cmderr.New` is a foreign library, so a wrapped wait error keeps only the argv and the cause.
- The goroutines and channels of both `run` functions are reduced to their decision rule. `Supervise` takes which event came first as an input, and `RunWithSignal` takes whether SIGINT arrived. `signal.Notify` and the blocking channel operations are not modelled.
- File system side effects are parameters or left out: `os.MkdirAll` (`Mount`'s `mkdir`), `ioutil.TempDir` (`MakeFS`'s `tempDir`) and `os.Stat` (the wait loop's probes). `os.Remove` of the temporary directory in `umountBtrfsRoot` is not modelled. It happens only after the unmount and cannot change `MakeFS`'s result.
- The permission bits `Mount` passes to `os.MkdirAll` are not modelled. Note that `os.FileMode(755)` at system/system.go:117 is decimal 755, which is octal 1363, not the evident 0755.
- `time.Sleep` is not modelled. The wait loop keeps its millisecond counter.
- `identifyFSType` runs `lsblk` and trims the output. The model takes the already trimmed text (or the failure) as a parameter.
- `path.Join` is modelled only for clean arguments: a base with no trailing slash and a relative path with no dot segments. Those are the only shapes the program builds, so `New` and `EnableSwap` require a plain system name: non-empty, with no slash, and not `.` or `..`.
- These operations are not modelled:
  - `EncryptedDisk.LuksFormat`, `LuksOpen`, `LuksClose`, `Umount` and `Snapshot`;
  - the `EFIDisk` operations;
  - `InstallFileSystem`, `InstallSystem`, `PostInstall`, `Passwd`, `Config.Exec`, `Backup` and `GenEtcHostname`.

  The step driver treats every one of them as an abstract `Do` or `Defer` outcome. Some of them make decisions that are therefore not modelled: `Snapshot` does nothing unless the root is btrfs, and otherwise mounts the btrfs root, snapshots it and defers the unmount (system/system.go:167-198). `EncryptedDisk.Umount` runs `umount` and then removes the mount directory, returning the first error (system/system.go:155-164). `Config.Exec` starts, waits for and kills its own child process.
- `main`'s option parsing, password prompts and its `create` step list are not modelled. Only `exec`'s prefix is, as `ExecSteps`.
- `summon.go` calls `EnableSwap` with an argument (line 63). `system/system.go` declares it without one (line 431). The two files come from different revisions, so `EnableSwap` follows `system/system.go`.
- Serial or parallel step composition and context-based cancellation do not appear in this code. The driver modelled is the one `summon.go` has: strictly sequential, with LIFO cleanups, and a cleanup queued only after its own `Do` succeeded.
- summon_test.go is not part of this model. It exercises helpers that none of these files define.
- `SwapLuksFormat` and `SwapLuksOpen` list the `dmsetup` query among the issued commands, although the code runs it with `CombinedOutput` rather than `run`. Its failure is returned unwrapped, as the code does.
