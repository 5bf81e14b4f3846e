# OpenEverest: models and proofs

This project models the parts of OpenEverest's Go code that carry state, a protocol or
arithmetic, and proves what they guarantee over every input, run or reachable state.

| file | what it models |
|---|---|
| `TokenStore.dfy`, `Revocation.dfy` | the blocklist of logged-out tokens, kept as one comma-joined string in a Secret that several servers rewrite with optimistic updates |
| `Accounts.dfy` | built-in user accounts, their plain-text marks, and revocation through the time of the last password change |
| `Sessions.dfy` | the decision to admit a token, over both stores at once |
| `Upgrade.dfy` | choosing the version to upgrade to or to install from published metadata |
| `LoginBackoff.dfy` | the per-visitor back-off of failed logins |
| `StepRunner.dfy`, `Uninstall.dfy` | the message-driven runner of installation steps, the uninstall plan, and the deletion of clusters until none is listed |
| `ClusterDeletion.dfy` | putting finalizers on backups before their cluster is deleted |
| `Pitr.dfy` | the point-in-time recovery window |
| `Resources.dfy`, `Convertors.dfy` | total and available resources in wrapping uint64 arithmetic, and the texts they are read from |
| `Namespaces.dfy` | merging comma-separated namespace lists |
| `Strings.dfy`, `Integers.dfy`, `Wrappers.dfy` | the parts of Go's `strings` and `strconv` in use; int64 and uint64 arithmetic; optional values and results |

Code that changes state in place is a class or a method over an array, proved against a
function of the old state; theorems about whole runs are lemmas about that function. A
Kubernetes object is its list of versions, or its value with a version number. A write lands
only if it was computed from the current version, its reply may be lost, and other writers
act between any two calls. Clocks and API answers are arbitrary values. Instants are whole
nanoseconds and never decrease within a run. Password hashes are an injective function, and
the token bucket of the login limiter is an arbitrary boolean.

## Where the code does less than its comments or its purpose suggest

Each of these is proved with the exact condition under which the code does what is wanted,
and with an input for which it does not.

- A revoked token is found until it expires exactly when its expiry has at most ten digits;
  garbage collection reads only the last ten characters (`Revocation.KeptUntilExpiry`, `Revocation.DroppedEarly`).
- A password change revokes an older token exactly when the two fall in different seconds
  (`Accounts.ChangeRevokesAcrossSeconds`, `Accounts.SameSecondExample`).
- A chosen version is refused for being too far ahead by a comparison of minors alone. The
  automatic choice is always acceptable to that test exactly when every published minor from
  2 on has its predecessor published in the same major (`Upgrade.UpgradePathsAgree`, `Upgrade.GapExample`).
- The recovery date is said to lose its nanoseconds, but the truncation unit is the
  nanosecond part itself: they are gone exactly when there were none
  (`Pitr.WholeSecondsExactly`, `Pitr.NanosecondsKeptExample`). The date is near now minus the
  upload interval exactly when the interval's nanoseconds fit int64
  (`Pitr.DateWithinASecond`, `Pitr.WrappedIntervalExample`).
- The comparator of backups is an order as Go's sort demands it exactly on lists in which no
  creation time occurs twice (`Pitr.ComparatorOrdersExactly`, `Pitr.TieExample`).
- The available disk of an EKS cluster is the room left for volumes exactly when that room
  and the reported consumption together fit uint64 (`Resources.AvailableExactly`,
  `Resources.RoomLostExample`).
- The login timeout is the initial one doubled per failure exactly up to 38 failures
  (`LoginBackoff.TimeoutInEveryState`); requests in flight at a time reach 39
  (`LoginBackoff.WrapsAfter39`). With more, two attempts may be accepted at one instant
  (`LoginBackoff.LockoutBoundExact`), which cannot happen when each accepted attempt is
  counted once before the next (`LoginBackoff.GeometricLockoutCountedOnce`).

## Model

| member | source | states |
|---|---|---|
| Revocation.NoLostRevocation | pkg/session/token_store.go:69-83 | In every interleaving of any number of servers' reads (also of old versions), computations, conditional writes, lost replies and retries, once a Block of a comma-free token has succeeded, every later state before the token's stamp has it as an element of the list and the lookup finds it |
| Revocation.KeptUntilExpiry | pkg/session/token_store.go:133-155 | A token expiring from 2001 on is found until its expiry in every run exactly when that expiry has no more than ten digits |
| Revocation.DroppedEarly | pkg/session/token_store.go:143-150 | With an eleven-digit expiry there is a run in which a successfully blocked token is no longer found although it has not expired |
| Revocation.OnlyRevokedListed | pkg/session/token_store.go:86-95 | What the lookup reports as revoked is part of an element that was there from the start or of a token some server was asked to revoke: conflicts and clean-ups invent nothing |
| Revocation.WriteCollectsExactly | pkg/session/token_store.go:118-155 | In every reachable state, a write that lands on an existing list keeps, of the tokens with a ten-digit expiry, exactly those that had not expired when it was computed, and adds none but its own |
| Revocation.GivesUpAfterEleven | pkg/session/blocklist.go:105-121 | An error at one of the first ten attempts leads to the next, and a server gives up only at an error of the eleventh or on cancellation |
| Revocation.StepKeepsInv | pkg/session/token_store.go:69-83 | Every step of every server keeps the protocol invariant: computed lists belong to the version they were read from, and granted live tokens are in the current list |
| Revocation.SuccessfulAddIsARun | pkg/session/token_store.go:69-83 | The versions that a successful Add leaves are those of a run of the protocol in which a server reads, computes and writes, and its token is granted |
| TokenStore.Store.Add | pkg/session/token_store.go:69-83 | A successful Add extends the version that was current at the moment of the write, by the token and the clean-up at some instant of the call, whatever other servers wrote since it read; it fails only if one of its two calls does |
| TokenStore.Store.Exists | pkg/session/token_store.go:86-95 | The answer is the substring lookup in one of the stored versions, and there is none only if the read failed |
| TokenStore.Store.Block | pkg/session/blocklist.go:105-121 | At most eleven attempts, each but the last of which met a failed call; success means the last of them added the token, failure that all eleven failed or the request was cancelled in between |
| TokenStore.AddDataToSecret | pkg/session/token_store.go:118-131 | The rewritten value is the surviving tokens followed by the new one, or the new one alone if there was no list |
| TokenStore.CleanupOld | pkg/session/token_store.go:133-155 | The loop keeps, of the tokens with a ten-digit expiry, exactly those whose expiry lies after the given instant; what it keeps ends in ten characters that are a number, in the order of the list |
| TokenStore.ElementsAfterAdd | pkg/session/token_store.go:118-131 | Splitting the stored string gives back the surviving elements of the old list and the new token |
| TokenStore.CleanupComposes | pkg/session/token_store.go:118-155 | Cleaning at one instant and again later, through the serialized form, equals cleaning once at the later one |
| TokenStore.LookupExact | pkg/session/token_store.go:86-95 | Substring search in the joined string finds a comma-free token exactly when it is a substring of a stored element |
| TokenStore.LookupIsMembership | pkg/session/token_store.go:86-95 | When no element is longer than the token, the substring search is exactly membership |
| TokenStore.StampOfShortened | pkg/session/blocklist.go:136-154 | Of a shortened token with an expiry of ten or more digits, clean-up reads the expiry modulo 10^10 |
| Strings.SplitJoin | pkg/session/token_store.go:126-131 | Splitting a joined non-empty list of comma-free parts gives the list back |
| Strings.ContainsJoin | pkg/session/token_store.go:86-95 | A separator-free text occurs in a joined list exactly when it occurs in one of the parts |
| Sessions.RevokedSessionIsRefused | pkg/session/manager.go:75-91 | A session that was logged out, or whose account was deleted or given a new password in a later second, is refused in every later state before its expiry, whatever any server does to the blocklist or the accounts |
| Sessions.LoggedOutTokenIsRefused | pkg/session/manager.go:75-91 | A token of any issuer, identified by its jti or else its uti, that was logged out is refused in every later state before its expiry |
| Sessions.AdmittedExactly | pkg/session/manager.go:75-91 | A token with a subject, an issuer, an identifier and an expiry is admitted exactly when no list element contains the identifier followed by the expiry and, for the built-in issuer, its account exists with no password change after the issue; for any other issuer the accounts do not matter |
| Sessions.AccountDecides | pkg/session/manager.go:221-243 | For a built-in user an absent account or a later password change blocks the token, and a malformed time of change or a missing issue time is an error, before the identifier and the expiry are read |
| Sessions.MissingClaims | pkg/session/manager.go:254-269 | The error for each missing claim: subject, issuer, identifier, expiry |
| Sessions.LiveSessionIsAdmitted | pkg/session/manager.go:75-91 | A session of an existing account is admitted exactly when the last password change is in a second not after the issue and no list element contains its shortened token |
| Sessions.SessionUser | pkg/session/manager.go:254-269 | The user name read from the claims of a session is the one that Create was given, as a built-in user |
| Accounts.StoreRefinesPasswordMap | pkg/kubernetes/accounts.go:74-195 | After any operations on the empty store, Verify accepts exactly the last password set for an existing user, login accepts the same non-blank, the hash-or-plain choice agrees with IsSecure, and every operation's outcome is that of a plain map |
| Accounts.LoginExactly | pkg/session/manager.go:145-167 | A login succeeds exactly with a non-blank matching password on an enabled account with the login capability, and each refusal is the first of these to fail |
| Accounts.StepRepresents | pkg/kubernetes/accounts.go:74-145 | Each operation keeps the relation between the stored accounts with their annotations and the map from users to passwords, with the same outcome |
| Accounts.StaleMarkUntilRecreated | pkg/kubernetes/accounts.go:121-145 | A deleted account keeps its plain-text mark, or the lack of one, through every sequence of operations that does not re-create it; re-creation then succeeds and clears the mark |
| Accounts.AccountChangeRevokesForGood | pkg/session/manager.go:221-243 | A password write or a deletion in a second after a token's issue blocks the token through any later password changes, deletions and re-creations |
| Accounts.RevokedInEveryLaterState | pkg/session/manager.go:221-243 | In a run from the empty store, after a successful password write or deletion in a second after the token's issue, the token is blocked in every later state |
| Accounts.ChangeRevokesAcrossSeconds | pkg/session/manager.go:221-243 | A later password change blocks the token exactly when the two fall in different seconds |
| Accounts.SameSecondExample | pkg/session/manager.go:221-243 | A concrete change half a second after the issue that does not block the token |
| Accounts.AccountsClient.CreateAccount | pkg/kubernetes/accounts.go:74-100 | The new contents and the outcome, also for an existing user and an empty password |
| Accounts.AccountsClient.SetAccountPassword | pkg/kubernetes/accounts.go:103-118 | The new contents and the outcome, hashed or plain, and that an absent user changes nothing |
| Accounts.AccountsClient.DeleteAccount | pkg/kubernetes/accounts.go:121-145 | The new contents and the outcome; annotations stay |
| Accounts.AccountsClient.InsertOrUpdateAccount | pkg/kubernetes/accounts.go:218-259 | The account is stored and its mark is set or cleared with it |
| Accounts.AccountsClient.Verify | pkg/kubernetes/accounts.go:147-184 | The outcome is that of the specification which StoreRefinesPasswordMap characterises |
| Accounts.AccountsClient.IsSecure | pkg/kubernetes/accounts.go:187-195 | A user is insecure exactly when marked with the value `true` |
| Upgrade.FindNextMinorVersion | pkg/cli/upgrade/upgrade.go:379-418 | The result is the least published version in a later (major, minor) pair, with its own entry, and absent exactly when there is no later pair |
| Upgrade.VersionToUpgradeTo | pkg/cli/upgrade/upgrade.go:329-377 | The result is the target (least later pair, else the current one, at its highest patch) with its own metadata entry; an error exactly when there is no target |
| Upgrade.TargetExistsExactly | pkg/cli/upgrade/upgrade.go:342-377 | There is a target exactly when some published version exceeds the current one |
| Upgrade.TargetIgnoresOrder | pkg/cli/upgrade/upgrade.go:342-418 | Lists that publish the same versions, whatever their order, have the same target |
| Upgrade.PermutationSameVersions | pkg/cli/upgrade/upgrade.go:342-418 | Permutations of a metadata list publish the same versions |
| Upgrade.UpgradesConverge | pkg/cli/upgrade/upgrade.go:329-418 | Repeated upgrades visit each of the k later pairs once, in order, at its highest patch (with k = 0 at most one upgrade happens), and end without an update at the greatest published version unless they started above it |
| Upgrade.LatestVersion | pkg/cli/install/install.go:340-381 | With a configured version, that version and its entry if it is published and an error otherwise or if it does not parse; with none, a greatest published version with its own entry, and an error exactly when nothing is published |
| Upgrade.HandleSpecifiedVersion | pkg/cli/upgrade/upgrade.go:278-326 | A requested version is accepted, with its own entry, exactly when it parses, exceeds the current one, has a minor at most one higher and is published; each of the five errors has its own exact condition |
| Upgrade.UpgradePathsAgree | pkg/cli/upgrade/upgrade.go:278-296 | Every automatic target passes the check on requested versions exactly when no published minor from 2 on lacks its predecessor |
| Upgrade.GapExample | pkg/cli/upgrade/upgrade.go:278-296 | A published list and a current version whose automatic target is refused as a requested one |
| LoginBackoff.GeometricLockout | internal/server/session_failures_storage.go:80-116 | If every accepted attempt of a visitor is counted as a failure before its next attempt, j >= 2 accepted attempts on one entry with at most 38 increases span more than 20ms * (2^j - 2), whatever other visitors, rejected attempts and clean-ups do |
| LoginBackoff.LockoutBoundExact | internal/server/session_failures_storage.go:109-116 | For each number of increases, the attempts on an entry with so many are spread like that in every run exactly if there are at most 38 |
| LoginBackoff.GeometricLockoutCountedOnce | internal/server/session.go:40-50 | If each accepted attempt is counted exactly once, the same span holds with no bound on the increases, for attempts within 292 years |
| LoginBackoff.TimeoutInEveryState | internal/server/session_failures_storage.go:109-116 | In every reachable state a timeout is 20ms * 2^k after k increases of its entry exactly for k up to 38 |
| LoginBackoff.LetThroughExactly | internal/server/session_failures_storage.go:80-99 | In every reachable state a visitor on the map with k <= 38 increases is let through exactly when the bucket agrees and its last attempt, accepted or refused, was more than 20ms * 2^k ago; a visitor not on the map exactly when the bucket agrees |
| LoginBackoff.SuccessForgets | internal/server/session_failures_storage.go:102-106 | After a success the visitor is off the map, and its next attempt counts as a first one |
| LoginBackoff.WrapsAfter39 | internal/server/session_failures_storage.go:109-116 | A run of requests in which 39 are let through, 21ms apart, before the first fails, and then each fails: the timeout is a given negative number instead of the doubled one, and the visitor's attempts depend on the token bucket alone |
| LoginBackoff.OverflowUnreachable | internal/server/session_failures_storage.go:80-116 | If each accepted attempt is counted once, an entry whose attempts span at most 292 years has at most 38 of them and an exact timeout |
| LoginBackoff.EvictionExact | internal/server/session_failures_storage.go:80-129 | In every reachable state an attempt keeps its own visitor and drops another one exactly when a clean-up is due and that one was idle for more than six hours; a clean-up is recorded, and so is due again only after the configured time |
| LoginBackoff.StepKeepsInv | internal/server/session_failures_storage.go:80-129 | Every attempt, failure and success keeps the invariant that ties each entry's timeout and accepted attempts to the increases since it was created |
| LoginBackoff.RateLimiterMemoryStore.Allow | internal/server/session_failures_storage.go:80-99 | The new store and the answer: the timeout is measured from the time last seen before this attempt, which is recorded even for a refused one |
| LoginBackoff.RateLimiterMemoryStore.IncreaseTimeout | internal/server/session_failures_storage.go:109-116 | The visitor's timeout doubles in int64; an absent visitor is not created |
| LoginBackoff.RateLimiterMemoryStore.CleanupVisitor | internal/server/session_failures_storage.go:102-106 | Exactly that visitor is forgotten |
| LoginBackoff.RateLimiterMemoryStore.CleanupStaleVisitors | internal/server/session_failures_storage.go:122-129 | Whatever the iteration order, exactly the visitors that are not stale stay, unchanged |
| StepRunner.StepsRunInOrder | pkg/cli/tui/spinner.go:152-220 | In every run and message order the started steps are a prefix of the list, each started once after its predecessor succeeded, and a nil result means that every step succeeded |
| StepRunner.StartedAfterSuccess | pkg/cli/tui/spinner.go:179-220 | When a step starts, each earlier one has succeeded, having made the calls its success requires |
| StepRunner.StepKeepsInv | pkg/cli/tui/spinner.go:179-220 | Every action keeps at most one step under way, the log consistent with the index, and a quit not caused by a key only after the current step is over |
| StepRunner.DoneExactly | pkg/cli/tui/spinner.go:152-220 | In every reachable state the model is done exactly when a key interrupted it or nothing is under way, and then the program can exit, with the end of the process after an interrupt and the step error otherwise; a delivered quit key interrupts it |
| StepRunner.Spinner.Update | pkg/cli/tui/spinner.go:179-220 | The new model and the command for each kind of message; the index stays inside the list |
| StepRunner.RunSpinner | pkg/cli/tui/spinner.go:152-175 | Started by Init and fed through Update, the spinner and the program around it are those of the modelled run after every sequence of actions, and the result is that of the run: an error, the end of the process after a quit key, or the step error |
| Uninstall.NamespaceRemovedOnlyWhenEmpty | pkg/cli/namespaces/remove.go:143-208 | In every run of the uninstall plan, and of the namespace removal command with or without keeping the namespace, for any list of namespaces, a removal starts only after a list of its clusters came back empty |
| Uninstall.ClearedBeforeRemoval | pkg/cli/namespaces/remove.go:159-208 | In every run of both plans a namespace's removal starts only after the deletions of its backup storages and monitoring configs succeeded |
| Uninstall.ChartThenNamespaces | pkg/cli/uninstall/uninstall.go:156-170 | In every run the chart is uninstalled only after each given namespace was removed, then the monitoring namespace is deleted, then the system namespace |
| Uninstall.CRDsDeletedLast | pkg/cli/uninstall/uninstall.go:156-170 | When the deletion of CRDs starts every other step has succeeded |
| Uninstall.NilMeansAllDone | pkg/cli/uninstall/uninstall.go:85-141 | A nil result of an uninterrupted run means that every step succeeded and each given namespace was removed |
| Uninstall.NilMeansRemoved | pkg/cli/namespaces/remove.go:143-156 | A nil result of the removal command means that every step succeeded and each given namespace was dealt with as the flag says |
| Uninstall.NewUninstallSteps | pkg/cli/uninstall/uninstall.go:156-170 | The generated list is the plan whose order the other results are about |
| Uninstall.NewRemovalSteps | pkg/cli/namespaces/remove.go:150-153 | The generated list is the removal plan whose order the other results are about |
| Uninstall.NamespaceStepsOrder | pkg/cli/namespaces/remove.go:159-208 | For any namespaces, each removal directly follows the deletions of clusters, backup storages and monitoring configs of the same namespace, exactly the given namespaces are removed, and the plan holds no other kinds of steps |
| Uninstall.DeleteDatabaseClusters | pkg/kubernetes/database_cluster.go:83-130 | Deletes follow directly on lists that found clusters, lists on deletes; success is reported only after a list that found none, and failure only after a failed request or as many deletions as the timeout allows |
| ClusterDeletion.Handler.DeleteDatabaseCluster | internal/server/handlers/k8s/database_cluster.go:61-100 | When the deletion is issued every listed backup of the cluster not being deleted carries the foreground finalizer, and the storage-protection one unless clean-up was requested, under arbitrary writers that remove neither. With clean-up requested no write adds the latter; every write is on such a backup; and only a failed call keeps the deletion from being issued |
| ClusterDeletion.Handler.EnsureFinalizers | internal/server/handlers/k8s/database_cluster.go:266-297 | Success means the finalizers are on the stored object, through conflicts, stale reads and lost replies; failure that eleven attempts met errors; and no write adds any other finalizer |
| ClusterDeletion.Handler.ProtectListed | internal/server/handlers/k8s/database_cluster.go:69-91 | Success means that every listed backup of the cluster not being deleted has the finalizers, and all writes are on such backups |
| ClusterDeletion.AddingOnlyProtects | internal/server/handlers/k8s/database_cluster.go:266-297 | Adding finalizers keeps all others in place and order, adds only protective ones and changes nothing else |
| Pitr.WindowWellFormed | internal/server/handlers/k8s/database_cluster.go:210-261 | A window has both ends or neither, in order; it starts at the completion of the backup in use (a succeeded one, and a newest such if the list can be sorted), which it names, and ends at that backup's recorded time or within a second of now minus the interval |
| Pitr.AnswerUnique | internal/server/handlers/k8s/database_cluster.go:210-261 | When the list can be sorted and the creation times of succeeded backups differ, the answer is determined, whatever the sort does |
| Pitr.GetDatabaseClusterPitr | internal/server/handlers/k8s/database_cluster.go:210-261 | The answer is the window of a succeeded backup, a newest one if the list can be sorted; none without one or without logs; and a nil dereference for one that has no completion time |
| Pitr.LatestSuccessfulBackup | internal/server/handlers/k8s/database_cluster.go:336-344 | The array is permuted and the result is its first succeeded backup, absent exactly when none succeeded; no succeeded one is newer if there are at most twelve or no creation time occurs twice |
| Pitr.SortBackups | internal/server/handlers/k8s/database_cluster.go:337-337 | Up to twelve backups are sorted in place by insertion, newest first and missing times last, ties or not; a longer list comes out as any order when a creation time occurs twice, and newest first otherwise |
| Pitr.AnySortAgrees | internal/server/handlers/k8s/database_cluster.go:336-357 | Two orders that agree with the comparator give the same newest succeeded backup, unless no succeeded one has a creation time |
| Pitr.ComparatorDecidesExactly | internal/server/handlers/k8s/database_cluster.go:346-357 | The comparator puts exactly one of two backups first exactly when their creation times differ |
| Pitr.TieExample | internal/server/handlers/k8s/database_cluster.go:353-356 | Of two backups of one time each is before the other, so the comparator is no order on them |
| Pitr.ComparatorOrdersExactly | internal/server/handlers/k8s/database_cluster.go:346-357 | On a list the comparator is the strict weak order that Go's sort asks for exactly when no creation time occurs twice in it, however many are missing |
| Pitr.WindowPossibleExactly | internal/server/handlers/k8s/database_cluster.go:238-252 | A backup can give a window at some time exactly when its record lies after its completion or, where records are missing or not relied on, its engine's version parses and is one that needs the heuristic |
| Pitr.EndByEngine | internal/server/handlers/k8s/database_cluster.go:359-398 | At a whole second, without a relied-on record, the window ends the configured interval ago, or 600 seconds for PSMDB and 60 for Postgresql and PXC before 1.14, if the backup was completed by then, and never otherwise |
| Pitr.EndByRecord | internal/server/handlers/k8s/database_cluster.go:240-247 | A relied-on record is the end if it lies after the completion, and there is none otherwise |
| Pitr.OneBackupAnswer | internal/server/handlers/k8s/database_cluster.go:210-261 | The whole answer for one backup: none without recovery, which Postgresql always has, or for a backup that failed or has no creation time; a nil dereference without a completion time; and else a window that names the backup even when it has no ends |
| Pitr.DateWithinASecond | internal/server/handlers/k8s/database_cluster.go:383-398 | A returned date lies in the second before now minus the interval exactly when the interval's nanoseconds fit int64 |
| Pitr.WrappedIntervalExample | internal/server/handlers/k8s/database_cluster.go:391-391 | With an interval one second too long for int64 a date later than now is returned |
| Pitr.WholeSecondsExactly | internal/server/handlers/k8s/database_cluster.go:389-389 | The date has no nanoseconds exactly when the present had none |
| Pitr.NanosecondsKeptExample | internal/server/handlers/k8s/database_cluster.go:389-389 | Half a second past a full one, the date returned keeps the half second |
| Resources.Subtract | pkg/kubernetes/resources.go:47-52 | The subtract-then-compare test on uint64 is exact saturation at zero |
| Resources.GetResourcesFromNodes | pkg/kubernetes/resources.go:63-101 | The accumulators hold the exact sums modulo 2^64, or the error is that of the first bad node |
| Resources.NodeTotals | pkg/kubernetes/resources.go:63-131 | The totals of the nodes are the sums of their millicpus, bytes of memory, ephemeral storage on Minikube and slots on EKS, and there are totals exactly when each node has what its type of cluster asks for |
| Resources.SlotsCounted | pkg/kubernetes/resources.go:103-131 | The volume slots are 25 for each healthy node of a limited family and 39 for each other healthy node |
| Resources.SumVolumesSize | pkg/kubernetes/resources.go:166-175 | The exact sum of the sizes modulo 2^64, or the error of the first bad one |
| Resources.SizeExactly | pkg/kubernetes/resources.go:166-175 | The size of the volumes is the sum of what their texts stand for, and exists exactly when all can be read |
| Resources.GetAllClusterResources | pkg/kubernetes/resources.go:38-61 | Each total is the exact one modulo 2^64, with the disk of an EKS cluster as room for free volumes plus the present ones |
| Resources.GetConsumedDiskBytes | pkg/kubernetes/resources.go:212-233 | Consumed bytes on EKS, zero elsewhere, an error for an unknown type |
| Resources.ReportedDifference | pkg/kubernetes/resources.go:45-60 | For all nodes and volumes of an EKS cluster, the reported total less the reported consumption is, modulo 2^64, 2^44 for each slot that the volumes leave free, with 25 or 39 slots per healthy node |
| Resources.AvailableExactly | internal/server/handlers/k8s/kubernetes.go:163-167 | For all nodes and volumes of an EKS cluster, what is reported as available is the room on the free slots exactly when that room and the reported consumption fit uint64 together |
| Resources.RoomLostExample | internal/server/handlers/k8s/kubernetes.go:163-167 | On 13444 healthy nodes of type `x.large` with one volume of `8Ei` there is room for 524315 volumes, and nothing is reported as available |
| Resources.NothingWraps | pkg/kubernetes/resources.go:38-61 | If 39 * 2^44 bytes per node and the consumption fit uint64, no sum wraps and the available disk is exact |
| Resources.CalculateClusterResources | internal/server/handlers/k8s/kubernetes.go:132-184 | For all nodes, volumes and pods the capacity is the exact total modulo 2^64, each available amount the saturated difference, and there is an error exactly when a part fails |
| Resources.GetConsumedCPUAndMemory | pkg/kubernetes/resources.go:179-209 | The exact sum, modulo 2^64, over the containers of running pods and all init containers of those pods of which no status reports a terminated one, or the error of the first bad quantity |
| Resources.RequestedExactly | pkg/kubernetes/resources.go:179-209 | The requested CPU and memory are the sums, pod by pod, of those of the containers of running pods and, where no status reports a terminated one, of the init containers |
| Resources.IsContainerInState | pkg/kubernetes/container.go:36-54 | True exactly when some status reports the state, although all are decoded into one map |
| Convertors.StrToBytes | pkg/convertors/convertors.go:43-91 | The backward scan splits the text behind its last digit, and the result is the meaning of the two parts |
| Convertors.UnitsExactly | pkg/convertors/convertors.go:59-80 | The units are the powers of 1000 and, with an i, of 1024, none, and a thousandth; every other suffix is refused |
| Convertors.BytesRoundedUp | pkg/convertors/convertors.go:81-91 | The result is the product of the number and the unit rounded up to a whole byte, and an error exactly when that is out of range |
| Convertors.RefusedTexts | pkg/convertors/convertors.go:43-91 | The error for an unknown suffix and for a missing number; the empty text is zero |
| Strings.ParseIntFormat | pkg/convertors/convertors.go:114-121 | Reading the printed digits of any integer, sign included, gives the integer back |
| Convertors.PrintedIsRead | pkg/convertors/convertors.go:83-86 | A float64 parser that reads every decimal text of a whole number below 2^53 exactly reads what the digit printer prints |
| Convertors.UnitsRoundTrip | pkg/convertors/convertors.go:43-91 | A printed whole number followed by any unit but `m` is read as exactly that many units while the product is below 2^53 |
| Convertors.BytesRoundTrip | pkg/convertors/convertors.go:114-116 | Printing bytes and reading them back gives the number, below 2^53, exactly when it is not negative |
| Convertors.MilliCPURoundTrip | pkg/convertors/convertors.go:94-121 | Printing and reading back every int32 number of millicpus gives it back when it is not negative and an error otherwise |
| Convertors.MillicpusExactly | pkg/convertors/convertors.go:94-105 | A printed number of millicpus is read back exactly when it fits uint64 |
| Convertors.CPUsRoundedDown | pkg/convertors/convertors.go:106-111 | A number of CPUs is a thousand times as many millicpus, rounded towards zero |
| Convertors.WholeCPUs | pkg/convertors/convertors.go:94-111 | Whole CPUs are read alike as CPUs and as millicpus |
| Namespaces.MergeNamespacesEnvVar | pkg/kubernetes/kubernetes.go:290-317 | Whatever the map's iteration order, the result is the joined sorted listing of the union of the names |
| Namespaces.MergeSplitsBack | pkg/kubernetes/kubernetes.go:290-317 | The result splits into exactly the names of both lists, strictly sorted, none empty, and is empty when there are none |
| Namespaces.MergeCommutative | pkg/kubernetes/kubernetes.go:290-317 | Merging is commutative |
| Namespaces.MergeAssociative | pkg/kubernetes/kubernetes.go:290-317 | Merging is associative |
| Namespaces.MergeIdempotent | pkg/kubernetes/kubernetes.go:290-317 | Merging a list with itself gives its canonical form, and merging a result with a part of it changes nothing |
| Namespaces.SameCanonicalForm | pkg/kubernetes/kubernetes.go:290-317 | Two texts have the same canonical form exactly when they name the same namespaces |
| Namespaces.SortedUnique | pkg/kubernetes/kubernetes.go:314-314 | A set of names has only one strictly sorted listing |
| Namespaces.BeforeExactly | pkg/kubernetes/kubernetes.go:314-314 | The order of the listing is the dictionary's: a proper prefix comes first, and else the smaller character at the first difference |

## Left out

- Accounts.AccountsClient.DeleteAccount: is one atomic step, while the code reads the Secret twice, so nothing is claimed about it under interleaving; the other account operations are atomic as well.
- LoginBackoff.RateLimiterMemoryStore.Allow: reads the clock once per call, treats the token bucket as an arbitrary boolean, and holds visitors as values under the mutex, while the code reads the visitor's timeout after unlocking.
- Pitr.SortBackups: for more than twelve backups of which two have one creation time nothing is said about the order, because the comparator does not meet what the sort asks for; the steps of the algorithm for long lists are not modelled, only what it promises.
- Uninstall.DeleteDatabaseClusters: counts polls instead of time and takes the deletion of all listed clusters as one call.
- ClusterDeletion.Handler.DeleteDatabaseCluster: covers the backups that were listed, not ones created after the list; the text of the storage-protection finalizer comes from another module and is only assumed to differ from the foreground one; the state of the back-off object, which all requests share, is a fresh count of retries.
- Resources.CalculateClusterResources: reports zero amounts as zero, while the API omits them; errors of listing nodes, volumes and pods are not modelled.
- Convertors.StrToBytes: takes the float64 parser and product as parameters, since binary rounding and the spellings of floats are not modelled; the round trips assume only that decimal texts of whole numbers below 2^53, and products below it, are exact. A conversion to uint64 that Go leaves to the machine is an error of its own.
- Version texts: parsing is left to the version library; pre-release and four-segment versions, which the patch comparison ignores, are not part of the model.
- Stale reads by IsBlocked: lookups decide on the current list and accounts; only Add reads old versions.
- JWT signing, YAML and JSON encoding, password hashing, RBAC, prompts, rendering, telemetry and Helm.
- A key press that quits while a step is under way: nothing is claimed about steps that start afterwards.
- The list of worker nodes is given; the taint filter, IsNodeInCondition, ParseNamespaceNames and removeEverestLabelFromNamespace would only add easy members.
- Detecting the cluster type, and the errors of listing objects, except where they stop a deletion.
