/** When the pod is well formed, and that it serves every PVC exactly once. */
module FileServerPodSoundness {
  import opened Collections
  import opened FileServerPod

  // ----- Paths

  predicate SlashFree(s: string) { forall i :: 0 <= i < |s| ==> s[i] != '/' }

  predicate CleanParts(p: PvcMount) { SlashFree(p.date) && SlashFree(p.backup) && SlashFree(p.pvcName) }

  lemma FirstPartDecides(a: string, x: string, b: string, y: string)
    requires SlashFree(a) && SlashFree(b) && a + "/" + x == b + "/" + y
    ensures a == b && x == y
  {
    var s, t := a + "/" + x, b + "/" + y;
    assert s[|a|] == '/' && t[|b|] == '/';
    assert a == s[..|a|] && b == t[..|b|];
    assert x == s[|a| + 1..] && y == t[|b| + 1..];
  }

  function Key(p: PvcMount): (string, string, string) { (p.date, p.backup, p.pvcName) }

  function Uid(p: PvcMount): string { p.uid }

  /** Path formatting is injective. */
  lemma PathDecidesKey(p: PvcMount, q: PvcMount)
    requires CleanParts(p) && CleanParts(q)
    ensures MountPath(p) == MountPath(q) <==> Key(p) == Key(q)
  {
    if MountPath(p) == MountPath(q) {
      var x, y := p.backup + "/" + p.pvcName, q.backup + "/" + q.pvcName;
      assert MountPath(p) == "/restores/" + (p.date + "/" + x);
      assert MountPath(q) == "/restores/" + (q.date + "/" + y);
      assert p.date + "/" + x == MountPath(p)[10..] && q.date + "/" + y == MountPath(q)[10..];
      FirstPartDecides(p.date, x, q.date, y);
      FirstPartDecides(p.backup, p.pvcName, q.backup, q.pvcName);
    }
  }

  lemma UidDecides(p: PvcMount, q: PvcMount)
    ensures VolumeName(p) == VolumeName(q) <==> p.uid == q.uid
    ensures DevicePath(p) == DevicePath(q) <==> p.uid == q.uid
  {
    assert VolumeName(p)[4..] == p.uid && VolumeName(q)[4..] == q.uid;
    assert DevicePath(p)[9..] == p.uid && DevicePath(q)[9..] == q.uid;
  }

  // ----- Distinctness of mapped sequences

  lemma SameDistinctness<S, T, U>(s: seq<S>, f: S -> T, g: S -> U)
    requires forall i, j :: 0 <= i < j < |s| ==> (f(s[i]) == f(s[j]) <==> g(s[i]) == g(s[j]))
    ensures Distinct(Map(s, f)) <==> Distinct(Map(s, g))
  {
    if Distinct(Map(s, f)) {
      forall i, j | 0 <= i < j < |s| ensures Map(s, g)[i] != Map(s, g)[j] {
        assert Map(s, f)[i] != Map(s, f)[j];
      }
    }
    if Distinct(Map(s, g)) {
      forall i, j | 0 <= i < j < |s| ensures Map(s, f)[i] != Map(s, f)[j] {
        assert Map(s, g)[i] != Map(s, g)[j];
      }
    }
  }

  lemma MapAppendAll<S, T>(a: seq<S>, b: seq<S>, c: seq<S>, d: seq<S>, f: S -> T)
    ensures Map(a + b + c + d, f) == Map(a, f) + Map(b, f) + Map(c, f) + Map(d, f)
  {
    MapAppend(a, b, f);
    MapAppend(a + b, c, f);
    MapAppend(a + b + c, d, f);
  }

  lemma Separated<T(!new)>(a: seq<T>, b: seq<T>, p: T -> bool)
    requires forall i :: 0 <= i < |a| ==> p(a[i])
    requires forall i :: 0 <= i < |b| ==> !p(b[i])
    ensures Distinct(a + b) <==> Distinct(a) && Distinct(b)
    ensures Distinct(b + a) <==> Distinct(a) && Distinct(b)
  {
    forall x | x in a ensures x !in b {
      var i :| 0 <= i < |a| && a[i] == x;
    }
    DistinctAppend(a, b);
    DistinctAppend(b, a);
  }

  // ----- Volume names

  function NameOf(v: Volume): string { v.name }

  function Names(volumes: seq<Volume>): seq<string> { Map(volumes, NameOf) }

  function CoreNames(internalMounts: bool): seq<string> {
    (if internalMounts then ["shared-mounts"] else []) + ["fuse-device", "kvm-device", "filesystems"]
  }

  const SSH_NAMES := ["ssh-etc", "ssh-run", "ssh-tmp", "ssh-dev", "ssh-oadp-etc", "ssh-secret"]

  const FILE_BROWSER_NAMES := ["database", "tmp", "filebrowser-tls", "filebrowser-credentials"]

  function SshNamesIn(c: Config): seq<string> { if c.ssh.Some? then SSH_NAMES else [] }

  function FileBrowserNamesIn(c: Config): seq<string> { if c.fileBrowser.Some? then FILE_BROWSER_NAMES else [] }

  function FixedNames(c: Config): seq<string> { CoreNames(c.internalMounts) + SshNamesIn(c) + FileBrowserNamesIn(c) }

  lemma FixedVolumeNames(c: Config)
    ensures Names(CoreVolumes(c.internalMounts)) == CoreNames(c.internalMounts)
    ensures Names(SshVolumesIn(c)) == SshNamesIn(c)
    ensures Names(FileBrowserVolumesIn(c)) == FileBrowserNamesIn(c)
  {
  }

  lemma AllNames(c: Config)
    ensures Names(AllVolumes(c)) == Map(c.pvcs, VolumeName) + FixedNames(c)
  {
    var pvcs := Map(c.pvcs, VolumeOf);
    FixedVolumeNames(c);
    MapAppendAll(pvcs, CoreVolumes(c.internalMounts), SshVolumesIn(c), FileBrowserVolumesIn(c), NameOf);
    assert Names(pvcs) == Map(c.pvcs, VolumeName);
    Reassociate(Names(pvcs), CoreNames(c.internalMounts), SshNamesIn(c), FileBrowserNamesIn(c));
  }

  lemma Reassociate<T>(a: seq<T>, b: seq<T>, c: seq<T>, d: seq<T>)
    ensures a + b + c + d == a + (b + c + d)
  {
  }

  predicate StartsWithP(s: string) { s != "" && s[0] == 'p' }

  lemma FixedNamesDistinct(c: Config)
    ensures Distinct(FixedNames(c))
    ensures forall i :: 0 <= i < |FixedNames(c)| ==> !StartsWithP(FixedNames(c)[i])
  {
    var core, ssh, browser := CoreNames(c.internalMounts), SshNamesIn(c), FileBrowserNamesIn(c);
    SomeNamesDistinct(c);
    Separated(ssh, core, StartsWithSS);
    Separated(browser, core + ssh, IsFileBrowserName);
  }

  predicate StartsWithSS(s: string) { |s| > 1 && s[0] == 's' && s[1] == 's' }

  predicate IsFileBrowserName(s: string) { s in FILE_BROWSER_NAMES }

  lemma SomeNamesDistinct(c: Config)
    ensures Distinct(CoreNames(c.internalMounts)) && Distinct(SshNamesIn(c)) && Distinct(FileBrowserNamesIn(c))
    ensures forall i :: 0 <= i < |SshNamesIn(c)| ==> StartsWithSS(SshNamesIn(c)[i])
    ensures forall i :: 0 <= i < |CoreNames(c.internalMounts)| ==>
      !StartsWithSS(CoreNames(c.internalMounts)[i]) && !IsFileBrowserName(CoreNames(c.internalMounts)[i])
    ensures forall i :: 0 <= i < |SshNamesIn(c)| ==> !IsFileBrowserName(SshNamesIn(c)[i])
  {
  }

  /** Volume names are unique exactly when the PVC UIDs are. */
  lemma VolumeNamesUnique(c: Config)
    ensures Distinct(Names(AllVolumes(c))) <==> Distinct(Map(c.pvcs, Uid))
  {
    AllNames(c);
    FixedNamesDistinct(c);
    Separated(Map(c.pvcs, VolumeName), FixedNames(c), StartsWithP);
    forall i, j | 0 <= i < j < |c.pvcs|
      ensures VolumeName(c.pvcs[i]) == VolumeName(c.pvcs[j]) <==> Uid(c.pvcs[i]) == Uid(c.pvcs[j])
    {
      UidDecides(c.pvcs[i], c.pvcs[j]);
    }
    SameDistinctness(c.pvcs, VolumeName, Uid);
  }

  // ----- Paths in one container

  function PathOf(m: VolumeMount): string { m.path }

  function DevicePathOf(d: VolumeDevice): string { d.path }

  function MountPaths(mounts: seq<VolumeMount>): seq<string> { Map(mounts, PathOf) }

  /** Every place of the container's file system something is put at. */
  function Paths(c: Container): seq<string> { MountPaths(c.mounts) + Map(c.devices, DevicePathOf) }

  ghost predicate CleanMounts(pvcs: seq<PvcMount>) { forall p :: p in pvcs ==> CleanParts(p) }

  ghost predicate KeysDistinct(pvcs: seq<PvcMount>) { Distinct(Map(Filter(pvcs, IsFilesystem), Key)) }

  /** The mounts of the filesystem PVCs have distinct paths exactly when their keys are distinct. */
  lemma FilesystemPathsUnique(pvcs: seq<PvcMount>)
    requires CleanMounts(pvcs)
    ensures Distinct(MountPaths(FilesystemMounts(pvcs))) <==> KeysDistinct(pvcs)
    ensures forall i :: 0 <= i < |FilesystemMounts(pvcs)| ==> UnderRestores(FilesystemMounts(pvcs)[i].path)
  {
    var kept := Filter(pvcs, IsFilesystem);
    FilterMembers(pvcs, IsFilesystem);
    assert MountPaths(FilesystemMounts(pvcs)) == Map(kept, MountPath);
    forall i, j | 0 <= i < j < |kept|
      ensures MountPath(kept[i]) == MountPath(kept[j]) <==> Key(kept[i]) == Key(kept[j])
    {
      assert kept[i] in kept && kept[j] in kept;
      PathDecidesKey(kept[i], kept[j]);
    }
    SameDistinctness(kept, MountPath, Key);
  }

  predicate UnderRestores(s: string) { |s| > 9 && s[1] == 'r' && s[9] == '/' }

  predicate UnderPvcDevices(s: string) { |s| > 5 && s[1] == 'd' && s[5] == 'p' }

  predicate UnderChrootRestores(s: string) { |s| > 14 && s[6] == 'r' && s[14] == '/' }

  lemma DevicePathsUnique(pvcs: seq<PvcMount>)
    requires Distinct(Map(pvcs, Uid))
    ensures Distinct(Map(BlockDevices(pvcs), DevicePathOf))
    ensures forall i :: 0 <= i < |BlockDevices(pvcs)| ==> UnderPvcDevices(BlockDevices(pvcs)[i].path)
  {
    var kept := Filter(pvcs, IsBlock);
    FilterDistinctBy(pvcs, IsBlock, Uid);
    assert Map(BlockDevices(pvcs), DevicePathOf) == Map(kept, DevicePath);
    forall i, j | 0 <= i < j < |kept|
      ensures DevicePath(kept[i]) == DevicePath(kept[j]) <==> Uid(kept[i]) == Uid(kept[j])
    {
      UidDecides(kept[i], kept[j]);
    }
    SameDistinctness(kept, DevicePath, Uid);
  }

  /** The main container's own mount paths, around the PVC mounts. */
  lemma MainPaths(c: Config)
    ensures MountPaths(MainContainer(c).mounts) ==
      (if c.internalMounts then ["/mnt/restore"] else [])
      + MountPaths(FilesystemMounts(c.pvcs)) + MountPaths(DeviceMounts(c))
    ensures MountPaths(DeviceMounts(c)) ==
      ["/dev/fuse", "/dev/kvm"] + (if BlockDevices(c.pvcs) == [] then [] else ["/restores"])
  {
    var first := if c.internalMounts then [VolumeMount("shared-mounts", "/mnt/restore")] else [];
    MapAppend(first, FilesystemMounts(c.pvcs), PathOf);
    MapAppend(first + FilesystemMounts(c.pvcs), DeviceMounts(c), PathOf);
  }

  lemma InsertedApart(first: seq<string>, middle: seq<string>, rest: seq<string>, p: string -> bool)
    requires forall i :: 0 <= i < |middle| ==> p(middle[i])
    requires forall i :: 0 <= i < |first + rest| ==> !p((first + rest)[i])
    requires Distinct(first + rest)
    ensures Distinct(first + middle + rest) <==> Distinct(middle)
  {
    var all, fixed := first + middle + rest, first + rest;
    if Distinct(all) {
      forall i, j | 0 <= i < j < |middle| ensures middle[i] != middle[j] {
        assert all[|first| + i] != all[|first| + j];
      }
    }
    if Distinct(middle) {
      Separated(middle, fixed, p);
      assert multiset(middle + fixed) == multiset(all);
      DistinctPermutation(middle + fixed, all);
    }
  }

  /** Paths around and beside the PVC mounts do not matter. */
  lemma MainPathsUnique(c: Config)
    requires CleanMounts(c.pvcs) && Distinct(Map(c.pvcs, Uid))
    ensures Distinct(Paths(MainContainer(c))) <==> KeysDistinct(c.pvcs)
  {
    var first := if c.internalMounts then ["/mnt/restore"] else [];
    var pvc, rest := MountPaths(FilesystemMounts(c.pvcs)), MountPaths(DeviceMounts(c));
    MainPaths(c);
    MainFixedPaths(c, first, rest);
    FilesystemPathsUnique(c.pvcs);
    DevicePathsUnique(c.pvcs);
    InsertedApart(first, pvc, rest, UnderRestores);
    Separated(Map(BlockDevices(c.pvcs), DevicePathOf), first + pvc + rest, UnderPvcDevices);
  }

  lemma MainFixedPaths(c: Config, first: seq<string>, rest: seq<string>)
    requires first == if c.internalMounts then ["/mnt/restore"] else []
    requires rest == ["/dev/fuse", "/dev/kvm"] + (if BlockDevices(c.pvcs) == [] then [] else ["/restores"])
    ensures Distinct(first + rest)
    ensures forall i :: 0 <= i < |first + rest| ==> !UnderRestores((first + rest)[i])
    ensures forall i :: 0 <= i < |first| ==> !UnderPvcDevices(first[i])
    ensures forall i :: 0 <= i < |rest| ==> !UnderPvcDevices(rest[i])
  {
  }

  lemma ChrootPathsUnique(pvcs: seq<PvcMount>)
    requires CleanMounts(pvcs)
    ensures Distinct(MountPaths(Map(FilesystemMounts(pvcs), UnderChroot))) <==> KeysDistinct(pvcs)
    ensures forall i :: 0 <= i < |FilesystemMounts(pvcs)| ==>
      UnderChrootRestores(UnderChroot(FilesystemMounts(pvcs)[i]).path)
  {
    var mounts := FilesystemMounts(pvcs);
    FilesystemPathsUnique(pvcs);
    var moved := (m: VolumeMount) => "/oadp" + m.path;
    assert MountPaths(Map(mounts, UnderChroot)) == Map(mounts, moved);
    forall i, j | 0 <= i < j < |mounts|
      ensures moved(mounts[i]) == moved(mounts[j]) <==> PathOf(mounts[i]) == PathOf(mounts[j])
    {
      assert moved(mounts[i])[5..] == mounts[i].path && moved(mounts[j])[5..] == mounts[j].path;
    }
    SameDistinctness(mounts, moved, PathOf);
    forall i | 0 <= i < |mounts| ensures UnderChrootRestores(UnderChroot(mounts[i]).path) {
      MountsUnderRestores(pvcs, i);
    }
  }

  lemma MountsUnderRestores(pvcs: seq<PvcMount>, i: nat)
    requires i < |FilesystemMounts(pvcs)|
    ensures var path := FilesystemMounts(pvcs)[i].path; |path| > 9 && path[..10] == "/restores/"
  {
    var p := Filter(pvcs, IsFilesystem)[i];
    assert MountPath(p)[..10] == "/restores/";
  }

  const SSH_PATHS := ["/etc", "/run", "/tmp", "/oadp/dev", "/oadp/etc", "/ssh-config", "/oadp/.ssh/authorized_keys"]

  lemma SshFixedPaths()
    ensures MountPaths(SSH_MOUNTS) == SSH_PATHS && Distinct(SSH_PATHS)
    ensures forall i :: 0 <= i < |SSH_PATHS| ==> !UnderChrootRestores(SSH_PATHS[i])
    ensures forall i :: 0 <= i < |SSH_PATHS| ==> SSH_PATHS[i] != "/oadp/restores"
  {
  }

  lemma SshPathsUnique(c: Config)
    requires CleanMounts(c.pvcs) && KeysDistinct(c.pvcs)
    ensures Distinct(Paths(SshContainer(c)))
  {
    var pvcMounts := FilesystemMounts(c.pvcs);
    var restored := RestoredInSsh(c.internalMounts, pvcMounts);
    SshFixedPaths();
    ChrootPathsUnique(c.pvcs);
    MapAppend(SSH_MOUNTS, restored, PathOf);
    if c.internalMounts || pvcMounts == [] {
      assert MountPaths(restored) == ["/oadp/restores"];
      Separated(MountPaths(restored), SSH_PATHS, (s: string) => s == "/oadp/restores");
    } else {
      Separated(MountPaths(restored), SSH_PATHS, UnderChrootRestores);
    }
    assert Paths(SshContainer(c)) == MountPaths(SshContainer(c).mounts);
  }

  const FILE_BROWSER_PATHS := ["/database", "/tmp", "/etc/filebrowser-tls", "/etc/filebrowser-credentials"]

  lemma FileBrowserFixedPaths()
    ensures MountPaths(FILE_BROWSER_MOUNTS) == FILE_BROWSER_PATHS && Distinct(FILE_BROWSER_PATHS)
    ensures forall i :: 0 <= i < |FILE_BROWSER_PATHS| ==> !UnderRestores(FILE_BROWSER_PATHS[i])
    ensures forall i :: 0 <= i < |FILE_BROWSER_PATHS| ==> FILE_BROWSER_PATHS[i] != "/restores"
  {
  }

  lemma FileBrowserPathsUnique(c: Config)
    requires CleanMounts(c.pvcs) && KeysDistinct(c.pvcs)
    ensures Distinct(Paths(FileBrowserContainer(c)))
  {
    var pvcMounts := FilesystemMounts(c.pvcs);
    var restored := RestoredInFileBrowser(c.internalMounts, pvcMounts);
    FileBrowserFixedPaths();
    FilesystemPathsUnique(c.pvcs);
    MapAppend(FILE_BROWSER_MOUNTS, restored, PathOf);
    if c.internalMounts || pvcMounts == [] {
      assert MountPaths(restored) == ["/restores"];
      Separated(MountPaths(restored), FILE_BROWSER_PATHS, (s: string) => s == "/restores");
    } else {
      Separated(MountPaths(restored), FILE_BROWSER_PATHS, UnderRestores);
    }
    assert Paths(FileBrowserContainer(c)) == MountPaths(FileBrowserContainer(c).mounts);
  }

  // ----- Declared volumes

  /** Every mount and device names a volume of the pod. */
  ghost predicate Declared(c: Container, names: seq<string>) {
    && (forall m :: m in c.mounts ==> m.volume in names)
    && (forall d :: d in c.devices ==> d.volume in names)
  }

  lemma PvcVolumesDeclared(c: Config)
    ensures forall m :: m in FilesystemMounts(c.pvcs) ==> m.volume in Names(AllVolumes(c))
    ensures forall d :: d in BlockDevices(c.pvcs) ==> d.volume in Names(AllVolumes(c))
    ensures forall name :: name in FixedNames(c) ==> name in Names(AllVolumes(c))
  {
    AllNames(c);
    FilterMembers(c.pvcs, IsFilesystem);
    FilterMembers(c.pvcs, IsBlock);
    forall p | p in c.pvcs ensures VolumeName(p) in Map(c.pvcs, VolumeName) {
      var i :| 0 <= i < |c.pvcs| && c.pvcs[i] == p;
      assert Map(c.pvcs, VolumeName)[i] == VolumeName(p);
    }
    forall m | m in FilesystemMounts(c.pvcs) ensures m.volume in Map(c.pvcs, VolumeName) {
      var i :| 0 <= i < |FilesystemMounts(c.pvcs)| && FilesystemMounts(c.pvcs)[i] == m;
      assert Filter(c.pvcs, IsFilesystem)[i] in c.pvcs;
    }
    forall d | d in BlockDevices(c.pvcs) ensures d.volume in Map(c.pvcs, VolumeName) {
      var i :| 0 <= i < |BlockDevices(c.pvcs)| && BlockDevices(c.pvcs)[i] == d;
      assert Filter(c.pvcs, IsBlock)[i] in c.pvcs;
    }
  }

  lemma FixedMountsDeclared(c: Config)
    ensures forall m :: m in DeviceMounts(c) ==> m.volume in FixedNames(c)
    ensures c.internalMounts ==> "shared-mounts" in FixedNames(c)
    ensures c.ssh.Some? ==> forall m :: m in SSH_MOUNTS ==> m.volume in FixedNames(c)
    ensures c.fileBrowser.Some? ==> forall m :: m in FILE_BROWSER_MOUNTS ==> m.volume in FixedNames(c)
    ensures "filesystems" in FixedNames(c)
  {
    var core, ssh, browser := CoreNames(c.internalMounts), SshNamesIn(c), FileBrowserNamesIn(c);
    assert forall x :: x in core || x in ssh || x in browser ==> x in FixedNames(c);
    assert "fuse-device" in core && "kvm-device" in core && "filesystems" in core;
    if c.ssh.Some? { SshMountNames(); }
    if c.fileBrowser.Some? { FileBrowserMountNames(); }
  }

  lemma SshMountNames()
    ensures forall m :: m in SSH_MOUNTS ==> m.volume in SSH_NAMES
  {
    assert SSH_NAMES[0] == "ssh-etc" && SSH_NAMES[1] == "ssh-run";
    assert SSH_NAMES[2] == "ssh-tmp" && SSH_NAMES[3] == "ssh-dev"
        && SSH_NAMES[4] == "ssh-oadp-etc" && SSH_NAMES[5] == "ssh-secret";
  }

  lemma FileBrowserMountNames()
    ensures forall m :: m in FILE_BROWSER_MOUNTS ==> m.volume in FILE_BROWSER_NAMES
  {
    assert FILE_BROWSER_NAMES[0] == "database";
    assert FILE_BROWSER_NAMES[1] == "tmp" && FILE_BROWSER_NAMES[2] == "filebrowser-tls"
        && FILE_BROWSER_NAMES[3] == "filebrowser-credentials";
  }

  lemma AllDeclared(c: Config)
    ensures Declared(MainContainer(c), Names(AllVolumes(c)))
    ensures c.ssh.Some? ==> Declared(SshContainer(c), Names(AllVolumes(c)))
    ensures c.fileBrowser.Some? ==> Declared(FileBrowserContainer(c), Names(AllVolumes(c)))
  {
    PvcVolumesDeclared(c);
    FixedMountsDeclared(c);
    var pvcMounts := FilesystemMounts(c.pvcs);
    forall m | m in Map(pvcMounts, UnderChroot) ensures m.volume in Names(AllVolumes(c)) {
      var i :| 0 <= i < |pvcMounts| && UnderChroot(pvcMounts[i]) == m;
      assert pvcMounts[i] in pvcMounts;
    }
  }

  // ----- Each PVC is served once

  function MountVolume(m: VolumeMount): string { m.volume }

  function DeviceVolume(d: VolumeDevice): string { d.volume }

  /** The volumes a container uses, as often as it uses them. */
  function Uses(c: Container): multiset<string> {
    multiset(Map(c.mounts, MountVolume)) + multiset(Map(c.devices, DeviceVolume))
  }

  /** Filesystem mounts and block devices together use every PVC volume as often as it is listed. */
  lemma PvcUses(pvcs: seq<PvcMount>)
    ensures multiset(Map(FilesystemMounts(pvcs), MountVolume)) + multiset(Map(BlockDevices(pvcs), DeviceVolume))
         == multiset(Map(pvcs, VolumeName))
  {
    var files, blocks := Filter(pvcs, IsFilesystem), Filter(pvcs, IsBlock);
    FilterSplit(pvcs, IsFilesystem, IsBlock);
    assert multiset(files + blocks) == multiset(pvcs);
    MapMultiset(files + blocks, pvcs, VolumeName);
    MapAppend(files, blocks, VolumeName);
    assert Map(FilesystemMounts(pvcs), MountVolume) == Map(files, VolumeName);
    assert Map(BlockDevices(pvcs), DeviceVolume) == Map(blocks, VolumeName);
  }

  lemma FixedUses(mounts: seq<VolumeMount>, name: string)
    requires forall m :: m in mounts ==> m.volume != name
    ensures multiset(Map(mounts, MountVolume))[name] == 0
  {
    assert name !in Map(mounts, MountVolume);
  }

  lemma MainUses(c: Config, p: PvcMount)
    ensures Uses(MainContainer(c))[VolumeName(p)] == multiset(Map(c.pvcs, VolumeName))[VolumeName(p)]
  {
    var first := if c.internalMounts then [VolumeMount("shared-mounts", "/mnt/restore")] else [];
    var pvcMounts, rest := FilesystemMounts(c.pvcs), DeviceMounts(c);
    MapAppend(first, pvcMounts, MountVolume);
    MapAppend(first + pvcMounts, rest, MountVolume);
    assert VolumeName(p)[0] == 'p';
    FixedUses(first, VolumeName(p));
    FixedUses(rest, VolumeName(p));
    PvcUses(c.pvcs);
  }

  /** The pod gives the PVC to the main container once, at its own place, from its own claim. */
  ghost predicate ServedOnce(pod: Pod, p: PvcMount) {
    var name := "pvc-" + p.uid;
    && Volume(name, Claim(if p.restoredName != "" then p.restoredName else p.pvcName)) in pod.volumes
    && Uses(pod.main)[name] == 1
    && if p.block then VolumeDevice(name, "/dev/pvc-" + p.uid) in pod.main.devices
       else VolumeMount(name, "/restores/" + p.date + "/" + p.backup + "/" + p.pvcName) in pod.main.mounts
  }

  lemma EachServedOnce(c: Config, p: PvcMount)
    requires Distinct(Map(c.pvcs, Uid)) && p in c.pvcs
    ensures ServedOnce(PodFor(c), p)
  {
    MainUses(c, p);
    forall i, j | 0 <= i < j < |c.pvcs|
      ensures VolumeName(c.pvcs[i]) == VolumeName(c.pvcs[j]) <==> Uid(c.pvcs[i]) == Uid(c.pvcs[j])
    {
      UidDecides(c.pvcs[i], c.pvcs[j]);
    }
    SameDistinctness(c.pvcs, VolumeName, Uid);
    DistinctOnce(Map(c.pvcs, VolumeName), VolumeName(p));
    var i :| 0 <= i < |c.pvcs| && c.pvcs[i] == p;
    assert Map(c.pvcs, VolumeName)[i] == VolumeName(p) && Map(c.pvcs, VolumeOf)[i] == VolumeOf(p);
    MemberServed(c.pvcs, p);
  }

  lemma MemberServed(pvcs: seq<PvcMount>, p: PvcMount)
    requires p in pvcs
    ensures if p.block then DeviceOf(p) in BlockDevices(pvcs) else MountOf(p) in FilesystemMounts(pvcs)
  {
    if p.block {
      FilterMembers(pvcs, IsBlock);
      var i :| 0 <= i < |Filter(pvcs, IsBlock)| && Filter(pvcs, IsBlock)[i] == p;
      assert BlockDevices(pvcs)[i] == DeviceOf(p);
    } else {
      FilterMembers(pvcs, IsFilesystem);
      var i :| 0 <= i < |Filter(pvcs, IsFilesystem)| && Filter(pvcs, IsFilesystem)[i] == p;
      assert FilesystemMounts(pvcs)[i] == MountOf(p);
    }
  }

  // ----- The pod as a whole

  /** Unique volume names; in every container unique paths and only declared volumes. */
  ghost predicate WellFormed(pod: Pod) {
    && Distinct(Names(pod.volumes))
    && Distinct(Paths(pod.main)) && Declared(pod.main, Names(pod.volumes))
    && (forall c :: c in pod.sidecars ==> Distinct(Paths(c)) && Declared(c, Names(pod.volumes)))
  }

  lemma SidecarsWellFormed(c: Config)
    requires CleanMounts(c.pvcs) && KeysDistinct(c.pvcs)
    ensures forall s :: s in Sidecars(c) ==> Distinct(Paths(s)) && Declared(s, Names(AllVolumes(c)))
  {
    AllDeclared(c);
    SshPathsUnique(c);
    FileBrowserPathsUnique(c);
    assert forall s :: s in Sidecars(c) ==>
      (c.ssh.Some? && s == SshContainer(c)) || (c.fileBrowser.Some? && s == FileBrowserContainer(c));
  }

  lemma AllServedOnce(c: Config)
    requires Distinct(Map(c.pvcs, Uid))
    ensures forall p :: p in c.pvcs ==> ServedOnce(PodFor(c), p)
  {
    forall p | p in c.pvcs ensures ServedOnce(PodFor(c), p) {
      EachServedOnce(c, p);
    }
  }

  /**
   * For PVCs in any mix of modes, with or without sidecars and in either mount mode, the pod is well
   * formed exactly when the restored UIDs are distinct and no two filesystem PVCs share date, backup and name.
   */
  lemma PodWellFormedExactly(c: Config)
    requires CleanMounts(c.pvcs)
    ensures WellFormed(PodFor(c)) <==> Distinct(Map(c.pvcs, Uid)) && KeysDistinct(c.pvcs)
    ensures WellFormed(PodFor(c)) ==> forall p :: p in c.pvcs ==> ServedOnce(PodFor(c), p)
  {
    VolumeNamesUnique(c);
    if Distinct(Map(c.pvcs, Uid)) {
      MainPathsUnique(c);
      AllDeclared(c);
      AllServedOnce(c);
      if KeysDistinct(c.pvcs) { SidecarsWellFormed(c); }
    }
  }

  // ----- What the sidecars see

  /** Both sidecars see the shared file systems, or every Filesystem PVC, where their server looks for it. */
  lemma SidecarsSeeTheData(c: Config, p: PvcMount)
    ensures c.internalMounts || (forall q :: q in c.pvcs ==> q.block) ==>
      && VolumeMount("filesystems", "/oadp/restores") in SshContainer(c).mounts
      && VolumeMount("filesystems", "/restores") in FileBrowserContainer(c).mounts
    ensures !c.internalMounts && p in c.pvcs && !p.block ==>
      var path := "/restores/" + p.date + "/" + p.backup + "/" + p.pvcName;
      && VolumeMount("pvc-" + p.uid, "/oadp" + path) in SshContainer(c).mounts
      && VolumeMount("pvc-" + p.uid, path) in FileBrowserContainer(c).mounts
  {
    var mounts := FilesystemMounts(c.pvcs);
    if forall q :: q in c.pvcs ==> q.block {
      FilterNone(c.pvcs, IsFilesystem);
    }
    if c.internalMounts || mounts == [] {
      assert RestoredInSsh(c.internalMounts, mounts)[0] == VolumeMount("filesystems", "/oadp/restores");
      assert RestoredInFileBrowser(c.internalMounts, mounts)[0] == VolumeMount("filesystems", "/restores");
    }
    if p in c.pvcs && !p.block {
      MemberServed(c.pvcs, p);
      var i :| 0 <= i < |mounts| && mounts[i] == MountOf(p);
      assert Map(mounts, UnderChroot)[i] == VolumeMount(VolumeName(p), "/oadp" + MountPath(p));
    }
  }

  /** The sidecars read the credentials they were given, and the main container has the devices libguestfs needs. */
  lemma FixedPartsArePresent(c: Config)
    ensures c.ssh.Some? ==>
      && Volume("ssh-secret", Secret(c.ssh.value)) in AllVolumes(c)
      && VolumeMount("ssh-secret", "/ssh-config") in SshContainer(c).mounts
      && VolumeMount("ssh-secret", "/oadp/.ssh/authorized_keys") in SshContainer(c).mounts
    ensures c.fileBrowser.Some? ==>
      && Volume("filebrowser-credentials", Secret(c.fileBrowser.value)) in AllVolumes(c)
      && VolumeMount("filebrowser-credentials", "/etc/filebrowser-credentials") in FileBrowserContainer(c).mounts
    ensures Volume("fuse-device", HostPath("/dev/fuse")) in AllVolumes(c)
    ensures Volume("kvm-device", HostPath("/dev/kvm")) in AllVolumes(c)
    ensures VolumeMount("fuse-device", "/dev/fuse") in MainContainer(c).mounts
    ensures VolumeMount("kvm-device", "/dev/kvm") in MainContainer(c).mounts
    ensures c.internalMounts ==>
      && Volume("shared-mounts", EmptyDir) in AllVolumes(c)
      && VolumeMount("shared-mounts", "/mnt/restore") in MainContainer(c).mounts
    ensures (exists p :: p in c.pvcs && p.block) ==> VolumeMount("filesystems", "/restores") in MainContainer(c).mounts
  {
    if p :| p in c.pvcs && p.block { MemberServed(c.pvcs, p); }
    var core, main := CoreVolumes(c.internalMounts), DeviceMounts(c);
    assert core[|core| - 3] == Volume("fuse-device", HostPath("/dev/fuse"));
    assert core[|core| - 2] == Volume("kvm-device", HostPath("/dev/kvm"));
    assert main[0] == VolumeMount("fuse-device", "/dev/fuse") && main[1] == VolumeMount("kvm-device", "/dev/kvm");
    if c.ssh.Some? {
      assert SshVolumesIn(c)[5] == Volume("ssh-secret", Secret(c.ssh.value));
      assert SSH_MOUNTS[5] == VolumeMount("ssh-secret", "/ssh-config");
      assert SSH_MOUNTS[6] == VolumeMount("ssh-secret", "/oadp/.ssh/authorized_keys");
    }
    if c.fileBrowser.Some? {
      assert FileBrowserVolumesIn(c)[3] == Volume("filebrowser-credentials", Secret(c.fileBrowser.value));
      assert FILE_BROWSER_MOUNTS[3] == VolumeMount("filebrowser-credentials", "/etc/filebrowser-credentials");
    }
  }
}
