/**
 * The file server pod as volumes, mounts and devices: the VM file-server main container with the
 * optional SSH and FileBrowser sidecars, in both mount modes.
 */
module FileServerPod {
  import opened Collections

  /** A PVC to serve; date is its backup date as formatted for paths. */
  datatype PvcMount =
    PvcMount(pvcName: string, backup: string, date: string, uid: string, restoredName: string, block: bool)

  datatype Source = Claim(name: string) | EmptyDir | HostPath(path: string) | Secret(name: string)

  datatype Volume = Volume(name: string, source: Source)

  datatype VolumeMount = VolumeMount(volume: string, path: string)

  datatype VolumeDevice = VolumeDevice(volume: string, path: string)

  datatype Container = Container(mounts: seq<VolumeMount>, devices: seq<VolumeDevice>)

  datatype Config = Config(
    podName: string, podNamespace: string, restoreName: string,
    pvcs: seq<PvcMount>,
    internalMounts: bool,
    ssh: Option<string>,          // the credentials Secret, if SSH access is enabled
    fileBrowser: Option<string>)

  datatype Pod = Pod(volumes: seq<Volume>, main: Container, sidecars: seq<Container>)

  datatype Built = Ok(pod: Pod) | MissingField

  // ----- PVC volumes

  function VolumeName(p: PvcMount): string { "pvc-" + p.uid }

  function ClaimName(p: PvcMount): string { if p.restoredName == "" then p.pvcName else p.restoredName }

  function DevicePath(p: PvcMount): string { "/dev/pvc-" + p.uid }

  function MountPath(p: PvcMount): string { "/restores/" + p.date + "/" + p.backup + "/" + p.pvcName }

  function VolumeOf(p: PvcMount): Volume { Volume(VolumeName(p), Claim(ClaimName(p))) }

  function MountOf(p: PvcMount): VolumeMount { VolumeMount(VolumeName(p), MountPath(p)) }

  function DeviceOf(p: PvcMount): VolumeDevice { VolumeDevice(VolumeName(p), DevicePath(p)) }

  predicate IsBlock(p: PvcMount) { p.block }

  predicate IsFilesystem(p: PvcMount) { !p.block }

  function FilesystemMounts(pvcs: seq<PvcMount>): seq<VolumeMount> { Map(Filter(pvcs, IsFilesystem), MountOf) }

  function BlockDevices(pvcs: seq<PvcMount>): seq<VolumeDevice> { Map(Filter(pvcs, IsBlock), DeviceOf) }

  method BuildPVCVolumesAndMounts(pvcs: seq<PvcMount>)
    returns (volumes: seq<Volume>, mounts: seq<VolumeMount>, devices: seq<VolumeDevice>)
    ensures volumes == Map(pvcs, VolumeOf)
    ensures mounts == FilesystemMounts(pvcs) && devices == BlockDevices(pvcs)
  {
    volumes, mounts, devices := [], [], [];
    for k := 0 to |pvcs|
      invariant volumes == Map(pvcs[..k], VolumeOf)
      invariant mounts == FilesystemMounts(pvcs[..k]) && devices == BlockDevices(pvcs[..k])
    {
      var p := pvcs[k];
      assert pvcs[..k + 1][..k] == pvcs[..k];
      var name := "pvc-" + p.uid;
      var claim := p.restoredName;
      if claim == "" { claim := p.pvcName; }
      volumes := volumes + [Volume(name, Claim(claim))];
      if p.block {
        devices := devices + [VolumeDevice(name, "/dev/pvc-" + p.uid)];
      } else {
        mounts := mounts + [VolumeMount(name, "/restores/" + p.date + "/" + p.backup + "/" + p.pvcName)];
      }
    }
    assert pvcs[..|pvcs|] == pvcs;
  }

  // ----- Sidecars

  function SshVolumes(secret: string): seq<Volume> {
    [Volume("ssh-etc", EmptyDir), Volume("ssh-run", EmptyDir), Volume("ssh-tmp", EmptyDir), Volume("ssh-dev", EmptyDir),
     Volume("ssh-oadp-etc", EmptyDir), Volume("ssh-secret", Secret(secret))]
  }

  const SSH_MOUNTS := [
    VolumeMount("ssh-etc", "/etc"), VolumeMount("ssh-run", "/run"), VolumeMount("ssh-tmp", "/tmp"),
    VolumeMount("ssh-dev", "/oadp/dev"), VolumeMount("ssh-oadp-etc", "/oadp/etc"),
    VolumeMount("ssh-secret", "/ssh-config"), VolumeMount("ssh-secret", "/oadp/.ssh/authorized_keys")]

  function UnderChroot(m: VolumeMount): VolumeMount { m.(path := "/oadp" + m.path) }

  function RestoredInSsh(internalMounts: bool, pvcMounts: seq<VolumeMount>): seq<VolumeMount> {
    if internalMounts || pvcMounts == [] then [VolumeMount("filesystems", "/oadp/restores")]
    else Map(pvcMounts, UnderChroot)
  }

  method BuildSSHSidecar(secret: string, internalMounts: bool, pvcMounts: seq<VolumeMount>)
    returns (c: Container, volumes: seq<Volume>)
    ensures c == Container(SSH_MOUNTS + RestoredInSsh(internalMounts, pvcMounts), [])
    ensures volumes == SshVolumes(secret)
  {
    volumes := [Volume("ssh-etc", EmptyDir), Volume("ssh-run", EmptyDir), Volume("ssh-tmp", EmptyDir),
                Volume("ssh-dev", EmptyDir), Volume("ssh-oadp-etc", EmptyDir)];
    volumes := volumes + [Volume("ssh-secret", Secret(secret))];
    c := Container(SSH_MOUNTS, []);
    if internalMounts || pvcMounts == [] {
      c := c.(mounts := c.mounts + [VolumeMount("filesystems", "/oadp/restores")]);
    } else {
      for k := 0 to |pvcMounts|
        invariant c == Container(SSH_MOUNTS + Map(pvcMounts[..k], UnderChroot), [])
      {
        c := c.(mounts := c.mounts + [pvcMounts[k].(path := "/oadp" + pvcMounts[k].path)]);
      }
      assert pvcMounts[..|pvcMounts|] == pvcMounts;
    }
  }

  function FileBrowserVolumes(secret: string): seq<Volume> {
    [Volume("database", EmptyDir), Volume("tmp", EmptyDir), Volume("filebrowser-tls", Secret("filebrowser-tls")),
     Volume("filebrowser-credentials", Secret(secret))]
  }

  const FILE_BROWSER_MOUNTS := [
    VolumeMount("database", "/database"), VolumeMount("tmp", "/tmp"),
    VolumeMount("filebrowser-tls", "/etc/filebrowser-tls"),
    VolumeMount("filebrowser-credentials", "/etc/filebrowser-credentials")]

  function RestoredInFileBrowser(internalMounts: bool, pvcMounts: seq<VolumeMount>): seq<VolumeMount> {
    if internalMounts || pvcMounts == [] then [VolumeMount("filesystems", "/restores")] else pvcMounts
  }

  // ----- The pod

  function CoreVolumes(internalMounts: bool): seq<Volume> {
    (if internalMounts then [Volume("shared-mounts", EmptyDir)] else [])
    + [Volume("fuse-device", HostPath("/dev/fuse")), Volume("kvm-device", HostPath("/dev/kvm")),
       Volume("filesystems", EmptyDir)]
  }

  function SshVolumesIn(c: Config): seq<Volume> { if c.ssh.Some? then SshVolumes(c.ssh.value) else [] }

  function FileBrowserVolumesIn(c: Config): seq<Volume> {
    if c.fileBrowser.Some? then FileBrowserVolumes(c.fileBrowser.value) else []
  }

  function AllVolumes(c: Config): seq<Volume> {
    Map(c.pvcs, VolumeOf) + CoreVolumes(c.internalMounts) + SshVolumesIn(c) + FileBrowserVolumesIn(c)
  }

  function DeviceMounts(c: Config): seq<VolumeMount> {
    [VolumeMount("fuse-device", "/dev/fuse"), VolumeMount("kvm-device", "/dev/kvm")]
    + (if BlockDevices(c.pvcs) == [] then [] else [VolumeMount("filesystems", "/restores")])
  }

  function MainContainer(c: Config): Container {
    Container((if c.internalMounts then [VolumeMount("shared-mounts", "/mnt/restore")] else [])
              + FilesystemMounts(c.pvcs) + DeviceMounts(c),
              BlockDevices(c.pvcs))
  }

  function SshContainer(c: Config): Container {
    Container(SSH_MOUNTS + RestoredInSsh(c.internalMounts, FilesystemMounts(c.pvcs)), [])
  }

  function FileBrowserContainer(c: Config): Container {
    Container(FILE_BROWSER_MOUNTS + RestoredInFileBrowser(c.internalMounts, FilesystemMounts(c.pvcs)), [])
  }

  function Sidecars(c: Config): seq<Container> {
    (if c.ssh.Some? then [SshContainer(c)] else []) + (if c.fileBrowser.Some? then [FileBrowserContainer(c)] else [])
  }

  predicate Buildable(c: Config) { c.podName != "" && c.podNamespace != "" && c.restoreName != "" && c.pvcs != [] }

  function PodFor(c: Config): Pod { Pod(AllVolumes(c), MainContainer(c), Sidecars(c)) }

  method ConfigureMainContainer(c: Config, pvcMounts: seq<VolumeMount>,
                                pvcDevices: seq<VolumeDevice>) returns (main: Container)
    requires pvcMounts == FilesystemMounts(c.pvcs) && pvcDevices == BlockDevices(c.pvcs)
    ensures main == MainContainer(c)
  {
    main := Container([], []);
    if c.internalMounts {
      main := main.(mounts := main.mounts + [VolumeMount("shared-mounts", "/mnt/restore")]);
    }
    main := main.(mounts := main.mounts + pvcMounts, devices := main.devices + pvcDevices);
    main := main.(mounts := main.mounts + [VolumeMount("fuse-device", "/dev/fuse")]);
    main := main.(mounts := main.mounts + [VolumeMount("kvm-device", "/dev/kvm")]);
    if |pvcDevices| > 0 { main := main.(mounts := main.mounts + [VolumeMount("filesystems", "/restores")]); }
  }

  method BuildFileServerPodSpec(c: Config) returns (r: Built)
    ensures r == if Buildable(c) then Ok(PodFor(c)) else MissingField
  {
    if c.podName == "" || c.podNamespace == "" || c.restoreName == "" || |c.pvcs| == 0 { return MissingField; }
    var volumes, pvcMounts, pvcDevices := BuildPVCVolumesAndMounts(c.pvcs);
    if c.internalMounts { volumes := volumes + [Volume("shared-mounts", EmptyDir)]; }
    volumes := volumes + [Volume("fuse-device", HostPath("/dev/fuse"))];
    volumes := volumes + [Volume("kvm-device", HostPath("/dev/kvm"))];
    volumes := volumes + [Volume("filesystems", EmptyDir)];
    assert volumes == Map(c.pvcs, VolumeOf) + CoreVolumes(c.internalMounts);
    var sidecars: seq<Container> := [];
    if c.ssh.Some? {
      var container, more := BuildSSHSidecar(c.ssh.value, c.internalMounts, pvcMounts);
      sidecars := sidecars + [container];
      volumes := volumes + more;
    }
    if c.fileBrowser.Some? {
      sidecars := sidecars + [Container(FILE_BROWSER_MOUNTS + RestoredInFileBrowser(c.internalMounts, pvcMounts), [])];
      volumes := volumes + FileBrowserVolumes(c.fileBrowser.value);
    }
    var main := ConfigureMainContainer(c, pvcMounts, pvcDevices);
    return Ok(Pod(volumes, main, sidecars));
  }
}
