/** What the host's file system answers during one publish, and what a publish that has bound its volume makes of it. */
module Mounting {

  /** What `IsLikelyNotMountPoint` says about the target path. */
  datatype TargetCheck = NotMountPoint | IsMountPoint | DoesNotExist | CheckFails

  /** What `isDirEmpty` says about the container's mount path. */
  datatype Content = NonEmpty | Empty | Gone | Unreadable

  datatype Host = Host(target: TargetCheck, canMakeTarget: bool, content: Content, canMount: bool)

  predicate TargetUsable(host: Host) {
    host.target.NotMountPoint? || (host.target.DoesNotExist? && host.canMakeTarget)
  }

  /** The container is mounted at the target path. */
  predicate Mounts(host: Host) {
    TargetUsable(host) && host.content.NonEmpty? && host.canMount
  }

  /** The exit that keeps the binding although nothing is mounted: the container's mount path is empty. */
  predicate StopsAtEmpty(host: Host) {
    TargetUsable(host) && host.content.Empty?
  }

  /** The exits that take the binding back. */
  predicate MustUndo(host: Host) {
    !TargetUsable(host) || host.content.Gone? || host.content.Unreadable? || (host.content.NonEmpty? && !host.canMount)
  }
}
