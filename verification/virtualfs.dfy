/** `VirtualFS` (system/system.go:361-393): bind-mount the host's virtual
    file systems into the target root, and unmount them again in the opposite
    order, so that `dev/pts` is mounted after and unmounted before `dev`.
 */
module VirtualFs {
  import opened Outcomes
  import opened Text
  import opened Process
  import opened SystemConfig

  /** The virtual file systems, in mount order. */
  const VirtualFSs: seq<string> := ["dev", "dev/pts", "sys", "proc"]

  /** Bind-mounts the host's `/p` on `dir/p`. */
  function BindCmd(dir: string, p: string): Cmd {
    Command(["mount", "--bind", Join("/", p), Join(dir, p)])
  }

  function UnbindCmd(dir: string, p: string): Cmd {
    Command(["umount", Join(dir, p)])
  }

  /** The mount point a mount or umount command acts on: its last argument. */
  function Target(c: Cmd): string {
    if |c.argv| == 0 then "" else c.argv[|c.argv| - 1]
  }

  /** The host path a bind mount binds: the argument before its target. */
  function Source(c: Cmd): string {
    if |c.argv| < 2 then "" else c.argv[|c.argv| - 2]
  }

  /** The commands of `VirtualFS.Mount`'s range loop, first to last. */
  function MountPlan(dir: string, fss: seq<string>): (r: seq<Cmd>)
    ensures |r| == |fss|
  {
    if |fss| == 0 then [] else [BindCmd(dir, fss[0])] + MountPlan(dir, fss[1..])
  }

  /** The commands of `VirtualFS.Umount`'s loop, which counts its index down
      from `i - 1` to 0. */
  function UmountFrom(dir: string, fss: seq<string>, i: nat): (r: seq<Cmd>)
    requires i <= |fss|
    ensures |r| == i
  {
    if i == 0 then [] else [UnbindCmd(dir, fss[i - 1])] + UmountFrom(dir, fss, i - 1)
  }

  function UmountPlan(dir: string, fss: seq<string>): (r: seq<Cmd>)
    ensures |r| == |fss|
  {
    UmountFrom(dir, fss, |fss|)
  }

  /** The i-th mount binds the i-th file system. */
  lemma {:induction false} MountPlanInOrder(dir: string, fss: seq<string>)
    ensures forall i :: 0 <= i < |fss| ==> MountPlan(dir, fss)[i] == BindCmd(dir, fss[i])
    decreases |fss|
  {
    if |fss| > 0 {
      MountPlanInOrder(dir, fss[1..]);
      forall i | 1 <= i < |fss|
        ensures MountPlan(dir, fss)[i] == BindCmd(dir, fss[i])
      {
        assert MountPlan(dir, fss)[i] == MountPlan(dir, fss[1..])[i - 1];
        assert fss[1..][i - 1] == fss[i];
      }
    }
  }

  /** The j-th unmount of the countdown from `i` acts on file system
      `i - 1 - j`. */
  lemma {:induction false} UmountFromCountsDown(dir: string, fss: seq<string>, i: nat)
    requires i <= |fss|
    ensures forall j :: 0 <= j < i ==> UmountFrom(dir, fss, i)[j] == UnbindCmd(dir, fss[i - 1 - j])
  {
    if i > 0 {
      var rest := UmountFrom(dir, fss, i - 1);
      assert UmountFrom(dir, fss, i) == [UnbindCmd(dir, fss[i - 1])] + rest;
      UmountFromCountsDown(dir, fss, i - 1);
      forall j | 1 <= j < i
        ensures UmountFrom(dir, fss, i)[j] == UnbindCmd(dir, fss[i - 1 - j])
      {
        assert UmountFrom(dir, fss, i)[j] == rest[j - 1];
      }
    }
  }

  /** The i-th umount unmounts the i-th file system counted from the end. */
  lemma UmountPlanReversed(dir: string, fss: seq<string>)
    ensures forall i :: 0 <= i < |fss| ==> UmountPlan(dir, fss)[i] == UnbindCmd(dir, fss[|fss| - 1 - i])
  {
    UmountFromCountsDown(dir, fss, |fss|);
  }

  /** `VirtualFS.Mount`: the binds in order, stopping at the first failure. */
  function Mount(v: VirtualFS, shell: Shell): (t: Transcript)
    ensures t.result.Ok? <==>
      && t.issued == MountPlan(v.dir, VirtualFSs)
      && forall i :: 0 <= i < |VirtualFSs| ==> shell(MountPlan(v.dir, VirtualFSs)[i]).Ok?
  {
    RunInOrder(MountPlan(v.dir, VirtualFSs), shell)
  }

  /** `VirtualFS.Umount`: the unmounts, last file system first, stopping at the
      first failure. */
  function Umount(v: VirtualFS, shell: Shell): (t: Transcript)
    ensures t.result.Ok? <==>
      && t.issued == UmountPlan(v.dir, VirtualFSs)
      && forall i :: 0 <= i < |VirtualFSs| ==> shell(UmountPlan(v.dir, VirtualFSs)[i]).Ok?
  {
    RunInOrder(UmountPlan(v.dir, VirtualFSs), shell)
  }

  /** Unmounting undoes mounting in reverse: the i-th unmount acts on the
      mount point of the i-th mount counted from the end, for any list of
      file systems and any directory. */
  lemma UmountTargetsReverseMountTargets(dir: string, fss: seq<string>)
    ensures forall i :: 0 <= i < |fss| ==>
      Target(UmountPlan(dir, fss)[i]) == Target(MountPlan(dir, fss)[|fss| - 1 - i])
  {
    MountPlanInOrder(dir, fss);
    UmountPlanReversed(dir, fss);
  }

  /** Every mount point lies inside the target root, and the host path bound
      on it is the same file system's path under `/`. */
  lemma MountsStayUnderDir(dir: string, fss: seq<string>)
    requires dir != ""
    ensures forall i :: 0 <= i < |fss| ==>
      && |Target(MountPlan(dir, fss)[i])| >= |dir|
      && Target(MountPlan(dir, fss)[i])[..|dir|] == dir
      && Source(MountPlan(dir, fss)[i]) == "/" + fss[i]
  {
    MountPlanInOrder(dir, fss);
    forall i | 0 <= i < |fss|
      ensures Target(MountPlan(dir, fss)[i]) == Join(dir, fss[i])
      ensures Source(MountPlan(dir, fss)[i]) == "/" + fss[i]
    {
      assert MountPlan(dir, fss)[i] == BindCmd(dir, fss[i]);
      JoinPrefix(dir, fss[i]);
    }
  }

  /** Distinct file systems are bound on distinct mount points, so no mount
      hides another. */
  lemma MountTargetsDistinct(dir: string, fss: seq<string>)
    requires forall i, j :: 0 <= i < j < |fss| ==> fss[i] != fss[j]
    ensures forall i, j :: 0 <= i < j < |fss| ==>
      Target(MountPlan(dir, fss)[i]) != Target(MountPlan(dir, fss)[j])
  {
    MountPlanInOrder(dir, fss);
    forall i, j | 0 <= i < j < |fss|
      ensures Target(MountPlan(dir, fss)[i]) != Target(MountPlan(dir, fss)[j])
    {
      JoinDistinct(dir, fss[i], fss[j]);
    }
  }

  /** `dev/pts` lives inside `dev`: it is mounted after `dev` and unmounted
      before it, so neither operation acts on a busy or missing mount point. */
  lemma NestedMountOrder(dir: string)
    ensures MountPlan(dir, VirtualFSs)[0] == BindCmd(dir, "dev")
    ensures MountPlan(dir, VirtualFSs)[1] == BindCmd(dir, "dev/pts")
    ensures UmountPlan(dir, VirtualFSs)[2] == UnbindCmd(dir, "dev/pts")
    ensures UmountPlan(dir, VirtualFSs)[3] == UnbindCmd(dir, "dev")
  {
    MountPlanInOrder(dir, VirtualFSs);
    UmountPlanReversed(dir, VirtualFSs);
  }

  /** A full mount followed by a full unmount leaves nothing behind: every
      mount point the mount bound is unmounted exactly once, in the opposite
      order. */
  lemma MountThenUmount(v: VirtualFS, shell: Shell)
    requires Mount(v, shell).result.Ok? && Umount(v, shell).result.Ok?
    ensures |Umount(v, shell).issued| == |Mount(v, shell).issued| == |VirtualFSs|
    ensures forall i :: 0 <= i < |VirtualFSs| ==>
      Target(Umount(v, shell).issued[i]) == Target(Mount(v, shell).issued[|VirtualFSs| - 1 - i])
  {
    assert Mount(v, shell).issued == MountPlan(v.dir, VirtualFSs);
    assert Umount(v, shell).issued == UmountPlan(v.dir, VirtualFSs);
    UmountTargetsReverseMountTargets(v.dir, VirtualFSs);
  }
}
