# Verified model of the SMB CSI driver's stateful core

This project models, in Dafny, the parts of the SMB CSI driver that hold state, run concurrently or do string and mode
arithmetic, and proves properties of them for all inputs, all runs and all interleavings. Nothing is executed: the
verifier is the only judge.

- **Volume locks and the mount hand-off** (`VolumeLock`, `StageProtocol`, `StageHistory`, `ControllerCalls`,
  `CallHistories`). Any number of stage,
  unstage, create and delete calls over one set of keys; each mount has a goroutine, a channel of capacity one and, after
  a timeout or a cancellation, a background releaser. Every lock operation, channel operation and goroutine start is one
  step.
- **The Kerberos cache directory** (`KerberosNames`, `KerberosCache`, `KerberosLinks`, `KerberosDirectory`). Each file
  system call is one step of an interleaving of creations and deletions for different volumes; the file names are
  analysed down to base64 and UTF-8 bytes.
- **Reference-counted SMB global mappings on Windows** (`SmbShare`, `SmbMappings`, `Mounters`). The share root that keys
  the counters, the concurrent counter protocol under a mutex per share, and a comparison with the mounter that scans links.
- **Volume identity, paths and deletion** (`GoStrings`, `Wrappers`, `Paths`, `VolumeId`, `Templates`, `NewVolume`,
  `FileTree`, `Deletion`). Encoding and decoding of the volume ID, template substitution, derived paths, and retain, archive or
  delete on a file tree with the timed deletion cache.
- **Mount options** (`Numerals`, `Modes`, `MountOptions`). Reading a mode as `strconv.ParseInt` does, raising the group
  bits, and the in-place edits of an option slice that may share its backing array with the request.

Code that computes values is modelled as functions; code that changes fields, slices or maps as classes and methods whose
contracts equate the new state with such a function; code whose point is its interleavings as a step system with an
invariant. `dafny verify dfyconfig.toml` checks everything.

## Properties that need a condition

Several statements hold only under a condition. Each condition is stated exactly, as an if-and-only-if.

- Sequential template replacement is simultaneous substitution, and the map order irrelevant, exactly when no value contains
  or starts another key that is replaced by something else (`Templates.SimultaneousIff`). A '$' that starts no such key,
  as in "a$b", never matters.
- The two Windows mounters always agree exactly when, among the sources in use, being on the same share and having the
  same link target come to the same (`Mounters.MountersAgreeIff`); two subdirectories of one share are enough to make
  them disagree (`Mounters.SubdirectoriesDisagree`).
- A create call stages its own lock key exactly when it clones a volume whose staging key is the new volume's name
  (`ControllerCalls.CreateUsesItsOwnKeyIff`). Such names are accepted (`ControllerCalls.CollidingNameIsAccepted`), and the
  call then aborts on itself (`ControllerCalls.CloneAbortsOnItsOwnKey`).
- Two pairs of a volume and a staging path share a lock exactly when they are equal or are cuts of one string at
  different dashes (`ControllerCalls.SameKeyIff`), as ("a-/x", "/y") and ("a", "/x-/y") are.
- An accepted volume can be recovered from its ID exactly when no field contains '#' and its uuid has no ".." element
  (`VolumeId.DeleteFindsCreatedDirectory`). The uuid is the requested name and is not checked at creation: a volume named
  ".." with a subdirectory is accepted, and DeleteVolume answers success for it and deletes nothing
  (`Deletion.UndecodableIsNeverDeleted`, `Deletion.DotDotNameIsAccepted`).
- Volumes with different names share an ID exactly when neither has a subdirectory and the names differ only in slashes
  at their ends, all else being equal (`VolumeId.SameIdIff`).
- A policy survives the volume ID except for an explicit "delete" against a retain or archive default
  (`VolumeId.PolicySurvives`).
- The live and the archived path are nested exactly when `subDir` starts with an empty or "." element and all its other
  elements spell "archived-" or "archived-." (`Deletion.NestedIff`). An archive that does not succeed loses live data
  exactly when the paths are nested and it removes something stale (`Deletion.FailedArchiveLosesIff`).
- An archive call repeated after the cache entry expired fails, and removes the archived data exactly when stale
  archives are removed (`Deletion.LateArchiveCall`).
- Once a creation for a uid has returned, its link keeps working through all further creations exactly when the uid's own
  path was no directory at the start (`KerberosLinks.KeepsLinkIff`); otherwise two racing creations can lose it
  (`KerberosLinks.RaceLosesLink`). A torn write takes away only the content, and that exactly when the link leads to
  the torn file and what was left in it was not issued for it (`KerberosLinks.TornWriteIff`).
- The node's second pass over a subdirectory names the controller's directory exactly when no value contains or starts
  any key, itself included, that is replaced by something else (`Templates.NodeAgreesIff`).
- An accepted request's paths stay below the working directory exactly when its mount directory never climbs out of it
  (`VolumeId.AcceptedStaysBelowIff`).
- Success of a delete call means that the directory is gone exactly when it was gone before, or the call had secrets and
  was not answered from the cache (`Deletion.SuccessMeansGoneIff`); a call without secrets fills that cache
  (`Deletion.SecretlessCallHidesTheVolume`).
- A deleted Kerberos cache leaves no dangling link exactly when every link to it was listed and removed, or the file
  stayed (`KerberosDirectory.DeletionDanglesIff`, `KerberosCache.FailedUnlinkDangles`).
- A cache file is named like a link of the default prefix exactly when the volume ID starts with the bytes 92 B6 F9 71 CF
  and a byte between 80 and BF (`KerberosNames.DefaultPrefixIff`, `KerberosNames.InvalidIdCanCollide`). CSI carries IDs as
  protocol buffer strings, which are UTF-8, so no such ID reaches the driver.
- Mappings outlast their users on every run exactly when no two volume IDs differ only in case
  (`SmbMappings.MappingsLastIff`).

Where comments and code disagree the model follows the code: the comment on `DeleteVolume` says that it performs no delete
action, while the code deletes or archives when secrets are given; the comment on the ID elements gives the form
server/subDir, while the code joins four elements with '#'.

## Model

| member | source | states |
|---|---|---|
| VolumeLock.VolumeLocks.TryAcquire | pkg/smb/volume_lock.go:44-52 | a key is taken exactly when nobody has it; a failed attempt changes nothing |
| VolumeLock.VolumeLocks.Release | pkg/smb/volume_lock.go:54-58 | the key and no other leaves the set |
| StageProtocol.StepKeepsInv | pkg/smb/nodeserver.go:216-402 | every step of every call, mount goroutine and releaser keeps: one owner per held key, acquires equal releases plus held keys, each mount result sent once and received once |
| StageProtocol.RunKeepsInv | pkg/smb/nodeserver.go:216-402 | the same over whole runs from any state that satisfies it |
| StageProtocol.ReachableInv | pkg/smb/nodeserver.go:216-225 | in every reachable state a key is in the lock set exactly when it has one owner, a handler or a releaser |
| StageProtocol.MountExcludesOthers | pkg/smb/nodeserver.go:346-402 | while a mount is in flight, even after its request timed out, its key is held, no other mount for it is in flight or being prepared, and no unstage cleanup for it runs |
| StageProtocol.ReleaseIsOfHeldKey | pkg/smb/nodeserver.go:355-364 | every release gives back a key that its owner holds at that moment |
| StageProtocol.ReplyIsTheMountsResult | pkg/smb/nodeserver.go:366-401 | a stage that received a result answers success exactly when the mount it started itself succeeded, and keeps its lock held exactly when it answers a timeout or cancellation |
| StageHistory.StageAnswers | pkg/smb/nodeserver.go:298-402 | on every run, read off its events: a stage answers success exactly when it found the target mounted or the Mount call it started and waited for returned success, an internal error exactly when it failed before mounting or that call failed, and each other reply exactly when it gave up waiting for that reason |
| StageHistory.OnlySuccessGoesOn | pkg/smb/controllerserver.go:110-117 | a stage that answers success leaves the rest of the call's work and owes the matching unmount; any other answer drops the work and owes nothing |
| StageHistory.BeginsIfFree | pkg/smb/nodeserver.go:216-219 | a call, a stage and an unstage begin exactly when their key is free, and take nothing otherwise |
| StageHistory.ResultIsTakenIfSent | pkg/smb/nodeserver.go:366-401 | the wait and its re-check take a result exactly when the mount goroutine has sent one |
| StageHistory.EveryCallProgresses | pkg/smb/controllerserver.go:108-145 | on every run every call is where its program and its successes so far have brought it, and owes exactly the unmounts of its own successful mounts, the latest first |
| StageHistory.WorkFollowsSuccess | pkg/smb/controllerserver.go:110-136 | when a call does work it is the next operation of its program, and every operation before it succeeded |
| StageHistory.FinishedCall | pkg/smb/controllerserver.go:113-117 | a finished call did the beginning of its program and, unless it was refused at the start, set out to take down exactly what it had mounted, the latest first |
| StageHistory.MountKeyIsStaged | pkg/smb/nodeserver.go:320-326 | every mount holds a key that the program of the call that started it stages |
| StageProtocol.NestedBlocksOnItselfIff | pkg/smb/controllerserver.go:108-122 | a nested stage or unstage finds its key taken by its own call if and only if it is the key the call took first |
| StageProtocol.OwnStageAborts | pkg/smb/nodeserver.go:217-219 | in every state a stage of the call's own key takes no lock, starts no mount and drops what is left to do |
| StageProtocol.NestedNeverBlocksOnItself | pkg/smb/controllerserver.go:393-408 | a call that arrives with a program that does not use its own key never finds a nested key taken by itself, on any run |
| StageProtocol.OnlyReleasersRemain | pkg/smb/nodeserver.go:320-326 | once all calls returned, every held key belongs to the releaser of a detached mount |
| StageProtocol.QuiescentBalance | pkg/smb/nodeserver.go:347-364 | when everything has come to rest no key is held, acquires equal releases, and every mount's result was sent and received once |
| StageProtocol.RankDecreases | pkg/smb/nodeserver.go:346-402 | no step of any call increases a mount's remaining work, and every step of its own goroutine, handler or releaser decreases it |
| StageProtocol.ReturnedMountIsNeverStuck | pkg/smb/nodeserver.go:347-364 | after the mount call returned, a step that decreases the remaining work is always enabled |
| StageProtocol.LastServiceFreesKey | pkg/smb/nodeserver.go:355-364 | the step that ends a mount's work takes its key out of the lock set |
| StageProtocol.ServiceIsBounded | pkg/smb/nodeserver.go:346-402 | on any run, however other calls interleave, a mount's own processes take at most as many steps as the measure says |
| StageProtocol.EveryRunFreesKey | pkg/smb/nodeserver.go:347-364 | once the mount call returned, on every run, however other calls interleave, that goes on until the mount's own processes have nothing left to do, its key is free in some state |
| StageProtocol.FreeingRun | pkg/smb/nodeserver.go:347-364 | such a run exists from every state, with only the mount's own steps and no longer than the measure |
| ControllerCalls.CreateUsesItsOwnKeyIff | pkg/smb/controllerserver.go:108-145 | for every accepted request, a stage or unstage inside CreateVolume uses the call's own key if and only if it clones a volume whose staging key is the requested name |
| ControllerCalls.KeyIsNotTheName | pkg/smb/controllerserver.go:444-453 | the key a new volume is staged under never equals the name it was requested with |
| ControllerCalls.DeleteNeverUsesItsOwnKey | pkg/smb/controllerserver.go:162-209 | for every decodable ID, the nested mount of DeleteVolume uses another key than the call's own |
| ControllerCalls.CloneAbortsOnItsOwnKey | pkg/smb/controllerserver.go:393-396 | on an idle driver every such clone, with or without a subdirectory to make first, takes the key, finds it held by itself when it comes to stage the source, and gives up the copy without a mount |
| ControllerCalls.CollidingNameIsAccepted | pkg/smb/controllerserver.go:484-513 | for every plain host, share, volume and working directory, the staging key of the volume is accepted as a name |
| ControllerCalls.CallsAreFresh | pkg/smb/nodeserver.go:216-225 | the lock programs of all four calls may arrive at any time; what they take is stated in CallHistories |
| CallHistories.StagingExcludesUnstaging | pkg/smb/nodeserver.go:216-420 | while a mount that a stage of a volume on a path started is in flight, an unstage of the same volume and path is never cleaning up, and takes no lock if it tries |
| CallHistories.StagingExcludesStaging | pkg/smb/nodeserver.go:216-326 | in the same time no second stage of the same volume and path prepares a mount or has one in flight, and takes no lock if it tries |
| CallHistories.StageKeepsItsMount | pkg/smb/nodeserver.go:164-334 | a stage mounts at most under the key of its volume and path and never takes its mount down |
| CallHistories.UnstageUnstages | pkg/smb/nodeserver.go:406-433 | a finished unstage set out, once, to unstage under the key of its volume and path |
| CallHistories.ControllerCallsExclude | pkg/smb/controllerserver.go:108-165 | no two create calls for one name and no two delete calls for one ID are ever inside together |
| CallHistories.CreateWorksUnderItsMount | pkg/smb/controllerserver.go:110-134 | CreateVolume makes its directory and copies only right after a stage of the new volume's own mount answered success, and copies only after the source was mounted too |
| CallHistories.CreateProgram | pkg/smb/controllerserver.go:110-145 | what CreateVolume mounts and does, in which order, with and without a subdirectory and a source |
| CallHistories.DeleteWorksUnderItsMount | pkg/smb/controllerserver.go:201-256 | DeleteVolume removes only right after a stage of the volume's own mount answered success |
| CallHistories.FinishedCallUnmounts | pkg/smb/controllerserver.go:204-208 | a finished call without unmounts of its own set out to take down exactly what it mounted, the latest first |
| ControllerCalls.SameKeyIff | pkg/smb/nodeserver.go:216 | two pairs of volume and path share a lock key if and only if they are equal or cut from one string at different dashes |
| KerberosNames.VolumeOfCacheName | pkg/smb/nodeserver.go:650-653 | the volume ID can be read back from its cache file name, for every byte string |
| KerberosNames.CacheNameInjective | pkg/smb/nodeserver.go:650-653 | different volume IDs have different cache files |
| KerberosNames.CacheNameSlashFree | pkg/smb/nodeserver.go:650-653 | a cache file name is one path element |
| KerberosNames.DefaultPrefixIff | pkg/smb/nodeserver.go:650-653 | a cache file name starts with the default link prefix if and only if the ID starts with five certain bytes and a continuation byte |
| KerberosNames.DefaultPrefixApart | pkg/smb/smb.go:65 | with the default prefix no cache file of a valid UTF-8 ID has a name that starts like a link's |
| KerberosNames.RenderInjective | pkg/smb/nodeserver.go:641-653 | cache files, per-uid links and temporary links never share a name across kinds, volumes, uids or suffixes |
| KerberosNames.InvalidIdCanCollide | pkg/smb/nodeserver.go:650-653 | an ID that is not UTF-8 whose cache file name is the link name of uid 0 |
| KerberosCache.RunKeepsInv | pkg/smb/nodeserver.go:690-784 | the directory invariant holds along every interleaving of creations and deletions |
| KerberosCache.NoLinkEverDangles | pkg/smb/nodeserver.go:708-778 | in every state of every interleaving, with link removals succeeding or finding nothing, no final or temporary link to a cache file targets a missing one; other links may point anywhere |
| KerberosCache.FailedUnlinkDangles | pkg/smb/nodeserver.go:768-780 | a run in which the removal of a link fails and the link is left dangling |
| KerberosLinks.KeepsLinkIff | pkg/smb/nodeserver.go:719-735 | on all creation-only runs from a directory, a uid for which a creation returned keeps a working link, also with torn writes, and on all without torn writes a genuine content, if and only if that uid's own path is no directory at the start |
| KerberosLinks.ReturnedLinksResolve | pkg/smb/nodeserver.go:686-738 | with creations only, in every state after a creation for a uid returned, its link leads to an existing file of that uid made for a volume of that uid, and unless some write was torn to a content issued for that volume |
| KerberosLinks.RaceLosesLink | pkg/smb/nodeserver.go:719-735 | from every directory with a directory in the link's place and for every two volumes, a run in which the second of two racing creations removes the link after the first returned |
| KerberosLinks.ReturnedIsForever | pkg/smb/nodeserver.go:735-738 | no later step forgets that a creation for the uid returned |
| KerberosLinks.TornWriteIff | pkg/smb/nodeserver.go:710-712 | after a write torn half-way a returned uid's link still leads to its file, and the content is still genuine if and only if the link leads to another volume or what was left is a content issued for this one |
| KerberosDirectory.Directory.WriteCacheFile | pkg/smb/nodeserver.go:708-717 | exactly when writing and chowning succeed, and the whole new directory in success, in failure, and after a write that failed half-way |
| KerberosDirectory.Directory.SwingLink | pkg/smb/nodeserver.go:719-735 | exactly when it succeeds; the link points at the file afterwards, no other entry changes, no link comes to dangle |
| KerberosDirectory.Directory.EnsureKerberosCache | pkg/smb/nodeserver.go:708-738 | exactly when it succeeds; then exactly the volume's file and the uid's link change; in any case no link comes to dangle |
| KerberosDirectory.Directory.DeleteKerberosCache | pkg/smb/nodeserver.go:740-784 | the loop removes exactly the listed links to the file that can be removed, then the file |
| KerberosDirectory.NothingToDelete | pkg/smb/nodeserver.go:751-758 | without the file a deletion ends at once and changes nothing, in the steps and in the loop |
| KerberosDirectory.SoloRunDeletes | pkg/smb/nodeserver.go:740-784 | every run of one deletion's steps to its end, in any order of the names, leaves the directory that the loop leaves |
| KerberosDirectory.SoloRunCreates | pkg/smb/nodeserver.go:708-738 | every run of one creation's steps to its end, with whatever errors, leaves the directory that the method leaves, and ends with the rename exactly when the method succeeds |
| KerberosDirectory.DeletionDanglesIff | pkg/smb/nodeserver.go:761-780 | a deletion leaves no dangling link if and only if the file stayed or every link to it was listed and removed |
| SmbShare.GetRootMappingPath | pkg/mounter/refcounter_windows.go:47-64 | the loop returns host and share in lower case, or an error exactly when one is missing |
| SmbShare.RootOfShare | pkg/mounter/refcounter_windows.go:58-63 | for every host and share without backslashes, the root of their path, whatever follows, is that path in lower case |
| SmbShare.SameRootIff | pkg/mounter/refcounter_windows.go:47-64 | a path has a root if and only if it has two pieces, and two paths have the same root if and only if their first two pieces are equal up to case |
| SmbShare.RootIgnoresCase | pkg/mounter/refcounter_windows.go:63 | the root does not depend on the case of ASCII letters |
| SmbShare.RootIgnoresSubpath | pkg/mounter/refcounter_windows.go:50-57 | nor on anything below the share, nor on trailing backslashes |
| SmbShare.RootIgnoresRepeats | pkg/mounter/refcounter_windows.go:50-57 | nor on repeated backslashes anywhere |
| SmbShare.RootIdempotent | pkg/mounter/refcounter_windows.go:47-64 | the root of a root is itself |
| SmbShare.UnmountFindsMountShare | pkg/mounter/safe_mounter_windows.go:104-148 | the share computed at unmount from the link is the one used at mount, for every spelling of slashes and case |
| SmbMappings.StepKeepsInv | pkg/mounter/safe_mounter_windows.go:106-166 | every step of concurrent SMBMount and SMBUnmount calls keeps: the mutex has one holder per share, every user has a mapping and a reference file |
| SmbMappings.MutexExcludes | pkg/mounter/refcounter_windows.go:34-40 | two calls inside the critical section are on different shares |
| SmbMappings.RemovesIff | pkg/mounter/safe_mounter_windows.go:151-166 | an unmount comes to remove the mapping if and only if it removed its reference file, could count, and counted none |
| SmbMappings.MappingOutlivesItsUsers | pkg/mounter/safe_mounter_windows.go:147-166 | in every interleaving, with failing calls, failed counts and repeated mounts, a share keeps its mapping while some volume has a successful SMBMount on it and no SMBUnmount of it on that share begun since or still running then |
| SmbMappings.MappingsLastIff | pkg/mounter/refcounter_windows.go:118-121 | for a driver that starts with nothing, mappings outlast their users on every run if and only if no two IDs differ only in case |
| SmbMappings.CaseTwinsLoseTheMapping | pkg/mounter/refcounter_windows.go:118-121 | for every two IDs that differ only in case, a run from the start that removes the mapping one of them uses |
| SmbMappings.WaitingUnmountTakesMapping | pkg/mounter/safe_mounter_windows.go:147-166 | an SMBUnmount that waits for the share while an SMBMount of the volume succeeds removes the mapping afterwards |
| Mounters.CsiProxyMounter.SmbMount | pkg/mounter/safe_mounter_windows.go:104-131 | an error-free mount as a change of links, reference files and mappings |
| Mounters.CsiProxyMounter.SmbUnmount | pkg/mounter/safe_mounter_windows.go:134-171 | an error-free unmount, and whether it removes the mapping |
| Mounters.WinMounter.CheckForDuplicateSmbMounts | pkg/os/smb/smb.go:83-113 | the loop finds a duplicate exactly when another staged volume's link leads to the same remote path |
| Mounters.WinMounter.SmbMount | pkg/mounter/safe_mounter_host_process_windows.go:66-118 | an error-free mount as a change of links and mappings; a mapping that no longer answers is removed and made again |
| Mounters.WinMounter.SmbUnmount | pkg/mounter/safe_mounter_host_process_windows.go:138-160 | an error-free unmount, and whether it removes the mapping |
| Mounters.SameDecision | pkg/os/smb/smb.go:83-113 | in matching states, no reference file is left exactly when no other link has the same target |
| Mounters.MountersAgreeIff | pkg/mounter/safe_mounter_windows.go:151-166 | both mounters remove or keep the mapping alike at every unmount of every sequential error-free history over a set of sources if and only if in that set the same share and the same link target come to the same |
| Mounters.SubdirectoriesDisagree | pkg/os/smb/smb.go:98-104 | for every two sources on one share with different link targets, a history at whose unmount one mounter keeps the mapping and the other removes it |
| Mounters.MappingsAreStagedShares | pkg/mounter/safe_mounter_windows.go:106-166 | after every sequential error-free history, the reference-counting mounter has mapped exactly the shares of the staged volumes |
| Mounters.LinksStayMappedIff | pkg/mounter/safe_mounter_host_process_windows.go:66-160 | the scanning mounter has mapped exactly the link targets of the staged volumes, after every such history, if and only if no source has outer spaces or a slash at its end |
| Templates.SimultaneousIff | pkg/smb/smb.go:279-286 | for every map of placeholders, replacement key by key in every order is one simultaneous substitution on all well-formed templates, and all orders agree, if and only if no value contains or starts another key that is replaced by something else |
| Templates.AnyOrderIsSimultaneous | pkg/smb/smb.go:279-286 | under that condition, replacing the remaining keys in any order completes a partial substitution |
| Templates.HarmfulOrders | pkg/smb/smb.go:279-286 | for every map that violates the condition, a template and two orders with different results |
| Templates.NodeAgreesIff | pkg/smb/nodeserver.go:309-315 | for every map of placeholders, on all well-formed templates a second pass in any order names what the first pass in any order made, given the template or the result, if and only if no value contains or starts any key, itself included, that is replaced by something else |
| Templates.SecondPassChangesNothing | pkg/smb/smb.go:279-286 | under that condition, all orders agree and replacing again changes nothing |
| Templates.HarmfulSecondPass | pkg/smb/smb.go:279-286 | for every map in which a value contains or starts its own key but disturbs no other, a template whose result a second pass changes |
| Templates.ReplaceWithMap | pkg/smb/smb.go:279-286 | the loop is one of the sequential replacements, and the simultaneous one under the same conditions |
| Templates.SetKeyValueInMap | pkg/smb/smb.go:265-276 | one matching key is overwritten whatever its case, or the key is added if none matches |
| Templates.NodeNamesControllerDirectory | pkg/smb/nodeserver.go:309-315 | under that condition, the node's own replacement of the template or of the controller's result is the controller's result |
| NewVolume.NodeStagesControllerDirectory | pkg/smb/nodeserver.go:309-319 | for every accepted request with a well-formed template, values that disturb no key and, without a subdirectory, a name in which no key occurs: the node's own replacement of the requested subdirectory or of the controller's result gives the controller's directory, and the joined path passes the node's check |
| NewVolume.ReadParameters | pkg/smb/controllerserver.go:460-479 | the loop fails exactly on an unknown parameter and otherwise gives every field the value of some key that names it, "" if none does |
| NewVolume.ReadByName | pkg/smb/controllerserver.go:461-468 | when no two parameters have the same name in any case, source, subDir and onDelete get the value of the parameter so named |
| NewVolume.ReplacedByName | pkg/smb/controllerserver.go:469-474 | and each pvc or pv metadata parameter gives the value of the placeholder that belongs to it |
| NewVolume.AbsentIsEmpty | pkg/smb/controllerserver.go:457-479 | what no parameter names is empty |
| NewVolume.ReadingIsDetermined | pkg/smb/controllerserver.go:460-479 | where no two keys name the same field the values do not depend on the map order |
| NewVolume.NewSmbVolume | pkg/smb/controllerserver.go:456-515 | the volume is the one made from the values read, with the placeholders replaced in some order, which is simultaneous substitution under the stated condition |
| Paths.JoinAppends | pkg/smb/controllerserver.go:452 | joining a path without ".." below a base appends its elements to the cleaned base |
| Paths.JoinedPathValid | pkg/smb/nodeserver.go:309-319 | the check on the joined path accepts exactly the pairs whose parts are accepted |
| Paths.ValidPieces | pkg/smb/smb.go:387-397 | a path joined by a slash or by a backslash is valid if and only if both parts are |
| Paths.ValidPiece | pkg/smb/smb.go:387-397 | a single piece is refused if and only if it is ".." |
| VolumeId.DecodeEncode | pkg/smb/controllerserver.go:432-571 | decoding an encoded volume gives its canonical form if and only if no field contains '#' and neither subDir nor uuid has a ".." element |
| VolumeId.DecodeParts | pkg/smb/controllerserver.go:543-571 | an ID of '#'-free parts is refused exactly when there is one part or the second or third has a ".." element; otherwise each part becomes its field |
| VolumeId.AcceptedIff | pkg/smb/controllerserver.go:480-506 | exactly which requests are accepted, with the policy words in any case of the letters |
| VolumeId.CreatedIdIs | pkg/smb/controllerserver.go:432-513 | the ID of every accepted request, part by part: trimmed source, trimmed subdirectory or name, the name if a subdirectory was given, and the request's or else the default's policy if it is to retain or to archive |
| VolumeId.EncodeCanonical | pkg/smb/controllerserver.go:432-441 | encoding the decoded form gives the identical ID, for every volume |
| VolumeId.SameIdIff | pkg/smb/controllerserver.go:432-513 | two accepted requests with different names get the same ID if and only if neither gives a subdirectory, the names differ only in slashes at their ends, and source and recorded policy come to the same |
| VolumeId.SlashNamesShareId | pkg/smb/controllerserver.go:432-441 | for every plain name and source, the name and the name with a slash at the end are both accepted and share an ID |
| VolumeId.DistinctNamesDistinctIds | pkg/smb/controllerserver.go:484-513 | volumes whose names are single path elements and differ never get the same ID, whatever mix of parameters |
| VolumeId.DecodedStaysBelow | pkg/smb/controllerserver.go:543-571 | every ID the decoder accepts leads to paths at or below the working directory |
| VolumeId.AcceptedStaysBelowIff | pkg/smb/controllerserver.go:444-526 | the paths of an accepted request lie at or below every absolute working directory if and only if its mount directory, read element by element, never climbs out; only a name with a ".." element given beside a subdirectory can |
| VolumeId.DeleteFindsCreatedDirectory | pkg/smb/controllerserver.go:444-526 | for every accepted request, the ID decodes to the volume if and only if no field has a '#' and the uuid no ".." element, and then the recomputed directories are the ones used at creation |
| VolumeId.UndecodableIff | pkg/smb/controllerserver.go:543-571 | without '#' in its fields, an accepted volume's ID is refused by the decoder if and only if a subdirectory was given and the name has a ".." element |
| VolumeId.MountDirectoriesNestedIff | pkg/smb/controllerserver.go:444-453 | the mount directories of two volumes whose names have no ".." element are nested if and only if the names are, read as paths |
| VolumeId.MountDirectoriesApart | pkg/smb/controllerserver.go:444-453 | for names that are single path elements and differ, the mount directories are neither equal nor nested |
| VolumeId.AcceptedPassesNodeCheck | pkg/smb/controllerserver.go:501-506 | every source and subDir accepted at creation passes the node's check |
| VolumeId.PolicySurvives | pkg/smb/controllerserver.go:185-187 | for every accepted request whose ID decodes to its volume, the policy in force at deletion is the one chosen at creation if and only if it was not an explicit "delete" against a retain or archive default |
| VolumeId.PolicyIsTheWord | pkg/smb/controllerserver.go:185-212 | at deletion the volume is retained exactly when the deciding word folds to "retain" and archived exactly when it folds to "archive"; the deciding word is the request's, or the default's if the request said nothing or "delete" |
| FileTree.RenameMoves | pkg/smb/controllerserver.go:231-233 | a successful rename moves the whole subtree and changes nothing else |
| FileTree.MkdirAllIs | pkg/smb/controllerserver.go:217-219 | only missing ancestors are added, as directories |
| Deletion.NestedIff | pkg/smb/controllerserver.go:211-213 | exactly when the live and the archived path are nested |
| Deletion.LiveIs | pkg/smb/controllerserver.go:211 | the live path is the mount directory followed by the elements of the subdirectory |
| Deletion.ArchivedIs | pkg/smb/controllerserver.go:213 | the archived path is the mount directory followed by the elements of the subdirectory, the first of them with "archived-" in front |
| Deletion.StaleRemovalSparesLive | pkg/smb/controllerserver.go:224-230 | removing an existing stale archive leaves the live tree alone if and only if the paths are not nested |
| Deletion.ArchiveConserves | pkg/smb/controllerserver.go:211-234 | after a successful archive the archived tree is the old live tree, the live path is gone, and nothing else changed except created parents |
| Deletion.ArchiveSucceedsIff | pkg/smb/controllerserver.go:211-234 | without faults an archive succeeds if and only if there is a live tree, the paths are not nested, no file is in the way of the archive's parents, and an archive already there is removed or can be replaced |
| Deletion.RetainKeepsTheTree | pkg/smb/controllerserver.go:189-260 | for every accepted recoverable request whose deciding word folds to "retain", every delete call answers success and leaves the tree as it was |
| Deletion.ArchiveMovesTheTree | pkg/smb/controllerserver.go:189-234 | whose deciding word folds to "archive", a successful delete with secrets that misses the cache moves the whole live tree to the archived path and changes nothing else but created parents |
| Deletion.OtherwiseTheTreeIsRemoved | pkg/smb/controllerserver.go:189-256 | with any other word, such a delete leaves nothing at the live path and changes nothing else |
| Deletion.FailedArchiveLosesIff | pkg/smb/controllerserver.go:211-234 | an archive that does not succeed, at whatever point it fails, loses data of the live tree if and only if the paths are nested and it removes something stale |
| Deletion.FailedArchiveSparesLive | pkg/smb/controllerserver.go:211-234 | when the paths are not nested, an archive that fails at any point leaves the live tree exactly as it was |
| Deletion.UndecodableIsNeverDeleted | pkg/smb/controllerserver.go:155-160 | for a volume created under a name with a ".." element and a subdirectory, every delete call answers success and changes nothing |
| Deletion.DotDotNameIsAccepted | pkg/smb/controllerserver.go:484-506 | the name ".." with any plain source and subdirectory is accepted at creation |
| Deletion.RepeatsWithinLifetime | pkg/smb/controllerserver.go:189-199 | within the cache lifetime, any number of further calls changes neither tree nor cache |
| Deletion.FailureIsNotRemembered | pkg/smb/controllerserver.go:201-260 | after a call its ID is a hit at that moment if and only if it answered success, a failed call is a hit at no time, and other IDs keep their entries |
| Deletion.RetryDoesTheWork | pkg/smb/controllerserver.go:189-260 | after any number of failed calls, a call with secrets and without faults does the work: under the delete policy nothing is left of the directory and nothing else ever changed, under the archive policy it performs the archive |
| Deletion.DeleteStaysDeleted | pkg/smb/controllerserver.go:235-256 | for the delete policy a call that does the work removes the volume's directory and nothing else, and no later call changes the tree, at any time and whatever fails |
| Deletion.SuccessMeansGoneIff | pkg/smb/controllerserver.go:189-260 | under the delete policy a successful call leaves no directory if and only if there was none or the call had secrets and was not answered from the cache |
| Deletion.SecretlessCallHidesTheVolume | pkg/smb/controllerserver.go:189-260 | after a call without secrets, every call with secrets within the cache lifetime answers success and changes nothing |
| Deletion.LateArchiveCall | pkg/smb/controllerserver.go:224-233 | an archive call after the entry expired fails, and changes the tree if and only if stale archives are removed |
| Deletion.Controller.CacheGet | pkg/smb/smb.go:157-159 | an entry is found exactly while it is younger than a minute; otherwise it is cleared |
| Deletion.Controller.Archive | pkg/smb/controllerserver.go:212-234 | the branch, step by step on the tree, is the archive function whose conservation is proved |
| Deletion.Controller.DeleteLocked | pkg/smb/controllerserver.go:185-261 | the locked part of the call is the deletion function the laws are about |
| Deletion.Controller.DeleteVolume | pkg/smb/controllerserver.go:150-262 | an undecodable ID counts as deleted, a busy volume is refused without effect, and the lock is free afterwards |
| Modes.OctalParses | pkg/smb/nodeserver.go:788-792 | a printed octal mode reads back as the same number |
| Modes.EveryBaseParses | pkg/smb/nodeserver.go:788 | binary, octal, decimal and hexadecimal modes, with or without a sign, are read as the number they are written for if it fits, and refused otherwise |
| Modes.CaseIsIgnored | pkg/smb/nodeserver.go:788 | the case of prefix letters and of hexadecimal digits does not matter |
| Modes.StrayUnderscores | pkg/smb/nodeserver.go:788 | a mode that starts or ends with an underscore, or has two in a row, is refused |
| Modes.UnderscoreIsSkipped | pkg/smb/nodeserver.go:788 | an underscore between digits does not change the number |
| Modes.RaisesExactlyGroupBits | pkg/smb/nodeserver.go:787-793 | a readable non-negative mode is rewritten to one that reads as the number with exactly the three group bits added; any other mode is left alone |
| Modes.EnableTwice | pkg/smb/nodeserver.go:787-793 | the rewrite is idempotent for every string |
| Modes.RewriteIsCanonical | pkg/smb/nodeserver.go:787-793 | two readable modes are rewritten to the same text if and only if they agree outside the group bits |
| MountOptions.RaisedAt | pkg/smb/nodeserver.go:796-806 | only the first entry of the flag is rewritten, every other entry keeps its place |
| MountOptions.MatchesIff | pkg/smb/nodeserver.go:798-801 | an entry matches a flag if and only if it is the flag, '=' and a value without '=' |
| MountOptions.RaisedCommute | pkg/smb/nodeserver.go:284-289 | rewriting two different flags in either order gives the same list |
| MountOptions.RerunGivesSameList | pkg/smb/nodeserver.go:281-293 | assembling again from flags that an earlier run may have edited gives the same list |
| MountOptions.OnlyFirstModesAltered | pkg/smb/nodeserver.go:281-293 | the request's flags come first and in order, with only the first file_mode and dir_mode entries altered |
| MountOptions.GroupedOptions | pkg/smb/nodeserver.go:282-289 | the list with a group, word by word: the flags with both modes raised, the gid, and the two default modes where they are missing |
| MountOptions.DomainComesLast | pkg/smb/nodeserver.go:291-293 | a domain comes last and changes nothing before it; without a group to add the list is the flags |
| MountOptions.GroupGetsAccess | pkg/smb/nodeserver.go:282-289 | whenever the driver adds the group, the list names it, and the first file mode and first directory mode of the list, if readable, give it read, write and execute; later entries of the same flags are not raised |
| MountOptions.CheckGidPresentInMountFlags | pkg/smb/nodeserver.go:613-620 | the loop finds a gid flag exactly when there is one |
| MountOptions.RaiseGroupRwxInMountFlags | pkg/smb/nodeserver.go:796-806 | the in-place loop turns the slice into the rewritten list and reports whether the flag was there |
| MountOptions.StageOptions | pkg/smb/nodeserver.go:281-293 | whatever the slice shares with the request, the result is the assembly of the original flags, and the flags afterwards still give the same list |

## Left out

- Concurrent controller calls on one volume: CreateVolume locks by name and DeleteVolume by ID, so claims about them are for different volumes.
- KerberosCache.NoLinkEverDangles: excludes directory listings and link removals that fail, because the property is false for them (FailedUnlinkDangles); calls for one volume are taken to exclude each other, temporary link names not to be reused, and the directory name to end in "/".
- KerberosLinks.ReturnedLinksResolve: writing the cache file is one step, which may be torn; the names of cache files belong to files only at the start.
- KerberosDirectory.Directory.WriteCacheFile: refuses a link under the cache file's own name, while os.WriteFile and os.Chown follow it; the step system treats such a start in the same way, and its theorems exclude it.
- KerberosNames.RenderInjective: for a prefix other than the default one it needs the prefix to start no cache file name.
- SmbMappings.MappingOutlivesItsUsers: a mount counts as a use only when no unmount of the volume on that share is still waiting, because the property is false otherwise (WaitingUnmountTakesMapping); a mapping stands for host and share; MD5 of the lower-case ID is the ID itself.
- Mounters.MountersAgreeIff: one call at a time and error-free, because the scanning mounter takes no lock; links are identified by their volume.
- VolumeId.SameIdIff: source, subDir and name contain no '#', which is the separator of the ID.
- VolumeId.DecodedStaysBelow: the working directory is not the empty string; nor in VolumeId.DeleteFindsCreatedDirectory, since a leading slash of subDir then decides whether the path is absolute.
- MountOptions.RerunGivesSameList: for the same group and domain on both runs.
- Letter case: ToLower and EqualFold fold ASCII letters only, not Unicode.
- Modes: integers have 64 bits, as on the platforms the driver is built for.
- Ephemeral inline volumes: unpublish takes no lock and undoes no reference or cache, so the invariants are not meant for them.
- The recursive chmod before a removal, and file permissions in general.
- Replacing a cluster-local host name by its address before an SMB mount on Windows.
- An SMBUnmount whose link cannot be read, which only removes the directory.
- NodePublishVolume, ensureMountPoint, volume statistics, capability lists, the identity service and the gRPC server: they pass requests on and hold no state of their own.
- Secret lookup, the decoding of a secret into a cache content, credential options and appendMountOptions: each is settled by reading one function.
- The v1beta Windows mounter, the Linux and Darwin mount wrappers, and command execution: external effects, modelled only as success or failure.
