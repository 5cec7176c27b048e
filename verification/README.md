# Verification of the compose, staker, portal and chat state

This project models the parts of the DAppNode package manager in which stored state is transformed
and has to stay consistent, and proves what holds of them for every input, every run and every
interleaving. Compose files, the database, Docker's networks, the portal's entries and the stored
conversations are values; Docker, HTTP, the user and the clock are answers given from outside.

Four groups of modules build on one another:

- **The compose layer.** `Strings`, `Numbers`, `Ports`, `Environment` and `DevicePath` are the parsers
  and printers with their exact round trips. `Compose` and `UserSettings` read a user's choices from
  a compose file and apply them to another one; `ComposeEditor` is the editor and what it writes.
  The law that the whole update path rests on, applying what was read reproduces what was written,
  is proved with its exact condition, then with the file in between, where the variables add a
  condition of their own, and in `ComposeDefaults` from the package's own file onwards.
  `ComposeRules` is the validator, `ComposeDefaults` the normaliser and what it keeps, `NetworkAlias`
  the names, `GlobalEnvs` the pass that spreads a variable.
- **Stakers and the portal.** `Stakers` and `HttpsPortal` are multi-step operations that may fail
  between any two writes, with invariants over whole runs.
- **The chat.** `SseReader` is the incremental stream reader, `ToolLoop` the bounded tool loop as a
  protocol over a history of events, `History` the bounded store, `DocsCache` the
  single-flight cache and `DocsUrls` what it does to the links of a text.
- **Smaller ones.** `ComposeUpLock`, `AsyncFlows`, `Notifications`, `CoreVersionId`.

Beside them, the modules `PathValues`, `ReadSettings`, `WrittenCompose`, `EditorValues`, `RuleValues`,
`DefaultsValues`, `StakerValues`, `GlobalValues`, `PortalValues`, `ToolValues`, `HistoryValues` and
`CoreVersionValues` say what is written and read literally, on texts, positions and fields, without the
functions that compute it.

Code that works step by step is a method or a class here, tied by its `ensures` to a function of the
old state; the laws are lemmas about those functions. Where a law fails for some inputs, the lemma
says exactly for which.

Run `dafny verify dfyconfig.toml` to check everything.

## Where the code and its comments differ

The model follows the code.

- `mergePortMappings` keeps the first mapping of a key; its comment says later ones overwrite.
- Unsetting a staker leaves its alias on `dnprivate_network`, so only the staker network and the alias
  on the core network are exclusive.
- Unsetting a consensus client on starknet removes the `beacon-chain.` and `validator.` aliases, but its
  settings hand out `staking.`, which stays.
- `hasApiMapping` asks for any mapping of the container: a second subdomain of it is not added.
- `removeNetwork` drops the declaration of the network even when another service is on it.
- `getContainerTargetStatus` takes every exited container for stopped, whatever its exit code.
- `updatePkgsWithGlobalEnvs` updates the listed container's service, not the service that is outdated.
- `fetchLlmsContext` clears its field before assigning it when the fetch throws at once.
- The reader yields each `data:` line by itself and does not take a lone CR for a line end, unlike
  section 9.2 of the WHATWG HTML Living Standard.
- `applyPreviousEndpoints` writes thresholds into the configuration it was given.

## Model

| member | source | states |
|---|---|---|
| `Ports.ParseAfterPrint` | `packages/dockerCompose/src/ports.ts:10-46` | What a reader sees of a printed mapping, for every mapping: a falsy host is gone, and before a container that is 0 or NaN the host takes its place. |
| `Ports.RoundTrip` | `packages/dockerCompose/src/ports.ts:10-46` | A mapping comes back from its row exactly when it has no host, or a truthy host before a truthy container port. |
| `Ports.RoundTripAll` | `packages/dockerCompose/src/ports.ts:10-46` | The same for a whole list. |
| `Ports.PrintIsStable` | `packages/dockerCompose/src/ports.ts:10-46` | Any row at all, parsed and printed, is a fixed point of parsing and printing. |
| `Ports.IdInjective` | `packages/dockerCompose/src/ports.ts:63` | The merge key tells container ports and protocols apart, so no two different ones are merged. |
| `Ports.PrintShowsHost` | `packages/dockerCompose/src/ports.ts:10-46` | Rows for one container port and protocol are the same exactly when they show the same host. |
| `Ports.MergeMeaning` | `packages/dockerCompose/src/ports.ts:58-65` | One entry per key, the keys of both lists, and the first list's mapping where both have one (the comment says the latter wins; the code keeps the first). |
| `Ports.MergeAssociative` | `packages/dockerCompose/src/ports.ts:58-65` | Merging is associative, order of entries included. |
| `Ports.MergeIdempotent` | `packages/dockerCompose/src/ports.ts:58-65` | Merging again what is there already changes nothing. |
| `EditorValues.IdText` | `packages/dockerCompose/src/ports.ts:58-65` | The merge key is the container port, a slash and the protocol in capitals. |
| `EditorValues.ProtocolRead` | `packages/dockerCompose/src/ports.ts:10-29` | A suffix names UDP in upper or lower case; anything else is TCP. |
| `EditorValues.NumbersRead` | `packages/dockerCompose/src/ports.ts:10-29` | After the colon stands the container port and before it the host; a single number is the container. |
| `Environment.RowRoundTrip` | `packages/utils/src/environment.ts:14-37` | One variable survives printing and parsing exactly when its name starts visibly without `=` and its value is one line with no trailing blank. |
| `Environment.RoundTrip` | `packages/utils/src/environment.ts:14-37` | A whole environment survives exactly when every entry does, in whatever order the keys are listed. |
| `Environment.ReadBackNamed` | `packages/utils/src/environment.ts:14-37` | Under usable names, what is read of a printed environment: the same names, each value cut to its first line and without trailing blanks. |
| `Environment.MergeIsAppend` | `packages/utils/src/environment.ts:49-57` | Merging two parsed lists is parsing their concatenation, the list with priority last. |
| `Environment.MergeLaws` | `packages/utils/src/environment.ts:49-57` | The merge is associative, drops only the empty name, and gives the first environment priority. |
| `DevicePath.StripLaws` | `packages/dockerCompose/src/devicePath.ts:27-28` | Stripping is idempotent, and a stripped name holds no separator and is never `..`. |
| `DevicePath.DevicePathShape` | `packages/dockerCompose/src/devicePath.ts:15-31` | A built path is the mountpoint's normalised components, the prefix, and the names that are left after stripping. |
| `DevicePath.RoundTrip` | `packages/dockerCompose/src/devicePath.ts:15-65` | Parsing a built path gives back the normalised mountpoint and the stripped names exactly when the mountpoint is below the root, has no component named like the prefix, and stripping leaves usable names. |
| `DevicePath.Rebuild` | `packages/dockerCompose/src/devicePath.ts:15-70` | Building again from what was parsed gives the same path, under exactly the same condition. |
| `DevicePath.RootMountpointIsLost` | `packages/dockerCompose/src/devicePath.ts:15-70` | The root as a mountpoint is read back as `.`, which cannot be applied. |
| `PathValues.DeviceIs` | `packages/dockerCompose/src/devicePath.ts:15-65` | In plain text: `<mountpoint>/dappnode-volumes/<package>/<volume>`, and the parts that are read of it. |
| `PathValues.StrippingIs` | `packages/dockerCompose/src/devicePath.ts:27-28` | Stripping, by its laws: a forbidden character goes wherever it stands, of the first dots one stays, nothing else changes. |
| `PathValues.ResolvingIs` | `packages/dockerCompose/src/devicePath.ts:30` | How a path is made normal: empty components and dots go, a parent takes the name before it along and vanishes above the root. |
| `Compose.CleanTwice` | `packages/dockerCompose/src/clean.ts:12-27` | Cleaning is idempotent. |
| `UserSettings.Fixpoint` | `packages/dockerCompose/src/userSettings.ts:122-281` | The central law: applying the settings read from a written compose writes the same compose, exactly when ports, networks and volumes are stable. |
| `UserSettings.ServiceFixpoint` | `packages/dockerCompose/src/userSettings.ts:140-255` | The same for one service: exactly its ports and its networks decide, its environment never does. |
| `UserSettings.EnvsStable` | `packages/dockerCompose/src/userSettings.ts:156` | Environment choices are always stable: an empty choice keeps the package's value, both times. |
| `UserSettings.PortsFixpoint` | `packages/dockerCompose/src/userSettings.ts:66-72` | Host ports read back and applied again print the same rows exactly when a host stands only before a usable container port and rows with one id show one host. |
| `UserSettings.NetworksFixpoint` | `packages/dockerCompose/src/userSettings.ts:180-227` | Service networks applied again are unchanged exactly when a network without aliases from the user lists each alias once. |
| `UserSettings.NetworksLost` | `packages/dockerCompose/src/userSettings.ts:41-64` | When the file declares no networks the service networks are not read back; that loses nothing exactly when the user added nothing. |
| `UserSettings.VolumeFixpoint` | `packages/dockerCompose/src/userSettings.ts:74-89` | One volume gets the same driver options again exactly when its device is readable, or is the one this package would get. |
| `UserSettings.TidyFixpoint` | `packages/dockerCompose/src/userSettings.ts:122-281` | Every choice of settings survives on a package with distinct port ids, aliases listed once and used volumes without devices, given readable mountpoints and some declared network. |
| `UserSettings.RepeatedAliasDrifts` | `packages/dockerCompose/src/userSettings.ts:180-227` | A concrete package, with an alias listed twice, whose compose changes when its own settings are applied again. |
| `UserSettings.UpdateKeepsEnvs` | `packages/dockerCompose/src/userSettings.ts:140-281` | Over an update, a value set before stays for every variable the new version still has. |
| `UserSettings.UpdateKeepsHosts` | `packages/dockerCompose/src/userSettings.ts:140-281` | Over an update, a port row is written for the new version as the old version's row for that container port and protocol was, exactly when the host read back for them, that of the last row read back under them, is the one the old row shows. |
| `UserSettings.StableHostAfter` | `packages/dockerCompose/src/userSettings.ts:140-281` | Among stable ports it always is. |
| `UserSettings.UpdateKeepsMountpoints` | `packages/dockerCompose/src/userSettings.ts:140-281` | Over an update, a volume with a readable mountpoint keeps its device. |
| `UserSettings.CollectHosts` | `packages/dockerCompose/src/userSettings.ts:66-72` | The loop over the port mappings of a service: the last mapping with an id decides, a missing host is empty. |
| `UserSettings.CollectMountpoints` | `packages/dockerCompose/src/userSettings.ts:74-89` | The loop over the volumes: unused volumes are skipped, unassigned ones read as empty. |
| `UserSettings.UniteNetworks` | `packages/dockerCompose/src/userSettings.ts:180-220` | The two loops of the network merge: addresses stay the package's, aliases are united without repeats, the user's other networks are added. |
| `ReadSettings.EnvsRead` | `packages/dockerCompose/src/userSettings.ts:39` | The variables read: those of every service, or nothing when there are none at all. |
| `ReadSettings.PortsRead` | `packages/dockerCompose/src/userSettings.ts:66-72` | The host ports read: for each container port and protocol the host of the last row that has it, empty when there is none. |
| `ReadSettings.MountpointsRead` | `packages/dockerCompose/src/userSettings.ts:74-89` | The mountpoints read: of the volumes whose name some row starts with, empty without a device, else the mountpoint of the device when it is readable. |
| `ReadSettings.NetworksRead` | `packages/dockerCompose/src/userSettings.ts:41-64` | The networks read: every service's and the declared ones, or none when the file declares none. |
| `WrittenCompose.VolumeRows` | `packages/dockerCompose/src/userSettings.ts:229-236` | The volume rows written: the rows with a container path, in order, and no others, each with its own normalised host before the colon and its own normalised container after it. |
| `WrittenCompose.NormalRow` | `packages/dockerCompose/src/volumes.ts:23-39` | A row that is normal already is written as it is. |
| `WrittenCompose.PathIsNormal` | `packages/dockerCompose/src/volumes.ts:10-15` | A path of named components is normal; trailing slashes go. |
| `WrittenCompose.VolumeRowStays` | `packages/dockerCompose/src/volumes.ts:23-39` | Concretely: `geth:/root/.ethereum` is written as it is. |
| `WrittenCompose.LabelsWritten` | `packages/dockerCompose/src/userSettings.ts:239-242` | The labels written: the package's own rows, ports and variables under the three default labels, and the other labels as they were. |
| `WrittenCompose.EnvsWritten` | `packages/dockerCompose/src/userSettings.ts:159` | The variables written: the package's names, each with the user's value unless that is empty. |
| `WrittenCompose.PortsWritten` | `packages/dockerCompose/src/userSettings.ts:161-168` | The port rows written: one for each of the package's, in order, with the user's host where the user has an entry for it. |
| `WrittenCompose.NetworksWritten` | `packages/dockerCompose/src/userSettings.ts:171-228` | The service networks written: the package's and the user's, with the package's fixed address and the aliases of both, each once. |
| `WrittenCompose.FieldsWritten` | `packages/dockerCompose/src/userSettings.ts:244-251` | Every other field of a service stays unless it is empty. |
| `WrittenCompose.VolumesWritten` | `packages/dockerCompose/src/userSettings.ts:256-267` | A volume gets exactly type `none`, option `bind` and the device for its mountpoint, or stays as it is. |
| `WrittenCompose.RootNetworksWritten` | `packages/dockerCompose/src/userSettings.ts:270-273` | The declared networks: the user's where there is one, else the package's. |
| `ComposeEditor.ComposeEditor.Edit` | `packages/dockerCompose/src/editor.ts:52-58` | Only the named service changes. |
| `ComposeEditor.ComposeEditor.MergeEnvs` | `packages/dockerCompose/src/editor.ts:80-84` | The service gets the merged environment as rows; everything else is as before. |
| `ComposeEditor.ComposeEditor.MergePortMapping` | `packages/dockerCompose/src/editor.ts:74-78` | The service gets the merged port rows; everything else is as before. |
| `ComposeEditor.ComposeEditor.AddNetwork` | `packages/dockerCompose/src/editor.ts:206-227` | The service joins with the settings laid over what it had, and the network is declared if it was not. |
| `ComposeEditor.ComposeEditor.RemoveNetwork` | `packages/dockerCompose/src/editor.ts:232-241` | The service leaves, and the declaration is removed. |
| `ComposeEditor.ComposeEditor.Output` | `packages/dockerCompose/src/editor.ts:290-317` | Succeeds exactly when volumes and ports pass and, unless it is allowed, no value under a key asks for variable substitution (texts in lists are not looked at); then writes every service cleaned. A failed check changes nothing. |
| `ComposeEditor.FileWritten` | `packages/dockerCompose/src/editor.ts:290-317` | The file written, field by field: `container_name` and `image` always stay, `dns` goes, every other field stays unless it is an empty list or object; labels, ports and volumes stay unless empty; variables become rows; version, volumes and networks are unchanged. |
| `EditorValues.ChecksAre` | `packages/dockerCompose/src/verify.ts:10-51` | Volumes and ports pass exactly when every volume row has a host and a target on one line, and no port is above 65535. |
| `EditorValues.SubstitutionIs` | `packages/dockerCompose/src/verify.ts:53-62` | A file asks for variable substitution exactly when a text under some key of it, at any depth, holds `${`; the texts of a list are not looked at. |
| `EditorValues.PortsMerged` | `packages/dockerCompose/src/editor.ts:74-78` | Merged ports: every new mapping is there, the old ones stay whose port and protocol have no new one, and there are no others. |
| `EditorValues.EnvsMerged` | `packages/dockerCompose/src/editor.ts:80-84` | Merged variables: one row for each name, with the new value if there is one and else the old one. |
| `EditorValues.NetworkAdded` | `packages/dockerCompose/src/editor.ts:206-227` | The service gets the given address and aliases or keeps what it had; an existing declaration stays; nothing else changes. |
| `EditorValues.NetworkRemoved` | `packages/dockerCompose/src/editor.ts:232-241` | The network goes from the service and from the declarations; nothing else changes. |
| `ComposeEditor.OutputKeepsSettings` | `packages/dockerCompose/src/editor.ts:290-317` | The user settings read from the written file are those read before writing, exactly when every variable of a service whose environment is an object is printable: a usable name, and a value on one line without a trailing blank. Rows are not printed again and cannot change. |
| `ComposeEditor.FixpointThroughFile` | `packages/dockerCompose/src/editor.ts:290-317` | The central law with the file written and read in between: the file is reproduced exactly when ports, networks and volumes are stable and, in every service, the variables that were written come back once they are printed, read and applied to the package again. |
| `ComposeEditor.NamedFixpointThroughFile` | `packages/dockerCompose/src/editor.ts:290-317` | The same value by value, when all names are usable: each written value is one line without a trailing blank, or is read as empty and is the package's own. |
| `ComposeEditor.TrailingBlankIsLost` | `packages/dockerCompose/src/editor.ts:290-317` | Without that the law fails: a package with the variable `A` set to `x` and the user's value `a` with a trailing blank, in whatever order variables are listed. |
| `ComposeEditor.RemoveUndoesAdd` | `packages/dockerCompose/src/editor.ts:206-241` | Removing a network right after adding it leaves the other networks as they were. |
| `ComposeEditor.AddKeepsDeclared` | `packages/dockerCompose/src/editor.ts:206-227` | Adding keeps every joined network declared. |
| `ComposeEditor.RemoveKeepsDeclared` | `packages/dockerCompose/src/editor.ts:232-241` | Removing does so exactly when no other service is on the network. |
| `ComposeEditor.SharedNetworkIsUndeclared` | `packages/dockerCompose/src/editor.ts:232-241` | Concretely: of two services on one network the first leaves, and the network of the second is no longer declared. |
| `NetworkAlias.ReservedAliases` | `packages/utils/src/getPrivateNetworkAliases.ts:10-34` | The generated aliases include one kept for core packages exactly on the core network, for the main service of a package with a reserved short name, and for the admin interface. |
| `NetworkAlias.AliasesShared` | `packages/utils/src/getPrivateNetworkAliases.ts:10-34` | Two services of a package share a generated alias exactly when both count as main or the package is the admin interface. |
| `DefaultsValues.ShortOf` | `packages/utils/src/getShortUniqueDnp.ts:14-18` | The registry's endings go, and nothing else of a name; `x.public.dappnode.eth` becomes `x.public`. |
| `DefaultsValues.ShortOfPackage` | `packages/utils/src/getShortUniqueDnp.ts:14-18` | The same for a longer name that does not end in `.eth`. |
| `DefaultsValues.UnderscoreGoes` | `packages/utils/src/getShortUniqueDnp.ts:14-18` | Underscores go wherever they stand. |
| `DefaultsValues.NamesAre` | `packages/utils/src/getPrivateNetworkAliases.ts:10-34` | The aliases of a service on a network of the system, each once: service and package, the package alone for the main one, and the three of the admin interface. |
| `ComposeRules.Validate` | `packages/schemas/src/validateDappnodeCompose.ts:16-44` | The validator reports every justified complaint and no other, and nothing exactly for a valid file; an unreadable version is reported at once. |
| `ComposeRules.NetworkIssues` | `packages/schemas/src/validateDappnodeCompose.ts:59-77` | The pass over the declared networks finds exactly the unlisted and the internal ones. |
| `ComposeRules.FieldIssues` | `packages/schemas/src/validateDappnodeCompose.ts:82-108` | The pass over a service's keys, DNS, PID, privileges and network mode finds exactly what breaks a rule. |
| `ComposeRules.ServiceNetworkIssues` | `packages/schemas/src/validateDappnodeCompose.ts:126-158` | The pass over a service's networks, in either form, finds exactly the unlisted networks and the reserved aliases. |
| `ComposeRules.VolumeIssues` | `packages/schemas/src/validateDappnodeCompose.ts:163-216` | The pass over a service's volume rows finds exactly the complaints of each row. |
| `ComposeRules.ServiceIssues` | `packages/schemas/src/validateDappnodeCompose.ts:82-121` | All passes of one service together. |
| `ComposeRules.RowIssuesNone` | `packages/schemas/src/validateDappnodeCompose.ts:163-216` | A row passes exactly when it names, with allowed characters, a volume declared without properties, and a target. |
| `ComposeRules.NothingJustified` | `packages/schemas/src/validateDappnodeCompose.ts:16-216` | A file is valid exactly when no complaint about it is justified. |
| `RuleValues.ComplaintsAre` | `packages/schemas/src/validateDappnodeCompose.ts:16-216` | When each complaint is justified, on the literal fields of the file: the minimum version 3.4, the allowed keys, networks and aliases, the DNS address, the packages that may do more, and the text of each volume row. |
| `DefaultsValues.VersionIs` | `packages/schemas/src/validateDappnodeCompose.ts:49-54` | A version is readable exactly when it is two plain decimal numbers with a dot in between, and reads as these. |
| `Strings.ContainsIs` | `packages/schemas/src/validateDappnodeCompose.ts:95` | A text is part of the DNS address exactly when it stands somewhere in it. |
| `RuleValues.ShowIs` | `packages/schemas/src/validateDappnodeCompose.ts:95` | How the value of a field is shown as the text that is looked for, lists included. |
| `ComposeDefaults.SetNetworks` | `packages/dockerCompose/src/setDappnodeComposeDefaults.ts:130-162` | Step by step, the given networks with the two private ones declared and the core one external. |
| `ComposeDefaults.DefaultsTwice` | `packages/dockerCompose/src/setDappnodeComposeDefaults.ts:21-73` | Applying the defaults twice is applying them once, exactly when no service has a restart policy that is present but empty. |
| `ComposeDefaults.EmptyRestartChanges` | `packages/dockerCompose/src/setDappnodeComposeDefaults.ts:21-73` | Concretely: a package with a restart policy of `null`. |
| `DefaultsValues.ServiceJoins` | `packages/dockerCompose/src/setDappnodeComposeDefaults.ts:90-124` | The networks of a service after the defaults: its own and the two of the system, with exactly these aliases: service and package, the package alone for the only or main service, and the three of the admin interface; a fixed address stays for bind alone. |
| `DefaultsValues.ServiceFields` | `packages/dockerCompose/src/setDappnodeComposeDefaults.ts:30-62` | The other fields after the defaults: the system's names and logging, `unless-stopped` unless the package has a restart policy, and its own allowed fields; environment, ports, volumes and labels stay. |
| `DefaultsValues.SectionsSet` | `packages/dockerCompose/src/setDappnodeComposeDefaults.ts:21-84` | Which files are accepted, and that a version below 3.5 becomes 3.5, the volumes stay, and the two private networks are declared external. |
| `ComposeDefaults.DefaultsStayValid` | `packages/dockerCompose/src/setDappnodeComposeDefaults.ts:21-162` | From a valid file the defaults make a valid one, exactly when the package takes no alias kept for core packages. |
| `ComposeDefaults.Enforced` | `packages/dockerCompose/src/setDappnodeComposeDefaults.ts:21-73` | Whatever the package asks for: names, logging and the private networks are the system's, DNS and build are gone, only allowed keys remain, only bind keeps an address. |
| `ComposeDefaults.InstalledFixpoint` | `packages/dockerCompose/src/setDappnodeComposeDefaults.ts:21-162` | From the package file to the file on disk and back: on a tidy package completed with the defaults, with readable mountpoints, the settings read from the written file reproduce it exactly when the written variables survive printing and reading; ports, networks and volumes always do. |
| `ComposeDefaults.NamedInstalledFixpoint` | `packages/dockerCompose/src/setDappnodeComposeDefaults.ts:21-162` | The same value by value, when all names are usable. |
| `Stakers.UnsetClient` | `packages/stakers/src/stakerComponent.ts:178-197` | Two writes and a recreation, in order, stopping at the first failure. |
| `Stakers.SetClientConfig` | `packages/stakers/src/stakerComponent.ts:130-173` | Settings applied and written before the start, or an installation with these settings. |
| `Stakers.SetAndStoreClient` | `packages/stakers/src/stakerComponent.ts:97-103` | The new client is configured first; only then the choice is stored, if it changed. |
| `Stakers.SetNewClient` | `packages/stakers/src/execution.ts:123-139` | Check of the previous client, unsetting, setting, storing, stopping at the first failure. |
| `Stakers.UnsetCarrier` | `packages/stakers/src/stakerComponent.ts:178-239` | After both removals the package neither declares nor joins the staker network and has no full node alias. |
| `Stakers.UnsetEffect` | `packages/stakers/src/stakerComponent.ts:199-239` | That is all that unsetting changes: every other membership stays, the `.dappnode.private` alias included. |
| `Stakers.SettingsCarrier` | `packages/stakers/src/execution.ts:141-166` | A compose with the settings of a slot always declares the staker network. |
| `Stakers.SetNewSafe` | `packages/stakers/src/stakerComponent.ts:61-103` | Switching: at every write at most one client of each slot carries it, also when a step fails; a completed switch stores the choice and leaves nobody but the stored client. |
| `Stakers.SetNewCarrier` | `packages/stakers/src/stakerComponent.ts:61-103` | After a completed switch exactly the chosen client carries the slot; a start that fails after the write always leaves it with a client the database does not name. |
| `Stakers.FailsAfterWriteIs` | `packages/stakers/src/stakerComponent.ts:61-173` | That failure in terms of the inputs: another client is chosen that is installed, the previous one is accepted and unset, the mountpoints are absolute, the write succeeds and the start does not. |
| `Stakers.FailedStartThenTwoCarriers` | `packages/stakers/src/stakerComponent.ts:61-173` | From such a failure the next completed switch leaves two clients carrying the slot. |
| `Stakers.PersistSafe` | `packages/stakers/src/execution.ts:104-121` | Refreshing the stored client keeps everything; a client that is not installed is forgotten. |
| `Stakers.UpdateCarrier` | `packages/dockerCompose/src/userSettings.ts:140-281` | The roles of an updated package are exactly those of the new version and those its settings carry over. |
| `Stakers.DefaultsClaimNothing` | `packages/dockerCompose/src/setDappnodeComposeDefaults.ts:21-162` | A valid file completed with the defaults claims no staker network and no full node's alias, when the slot's network is none of the system's own and the package's short name does not end in `dncore` as a component. |
| `Stakers.RunSafe` | `packages/stakers/src/stakerComponent.ts:61-239` | Over every run of switches, refreshes, installations, updates and removals: after each operation only the client in the database carries a slot, exactly when no newly chosen client fails to start after its file was written and no installed or updated file gives its package a role it is not stored for; and then at every moment at most one client of each slot carries it. |
| `Stakers.HeldRun` | `packages/stakers/src/stakerComponent.ts:61-239` | And exactly that one does: after a completed switch with the slot's settings the stored client carries it, and still does after any later operations except a failed switch of the slot that wrote something, an installation over the client and its removal. |
| `Stakers.FreshRun` | `packages/stakers/src/stakerComponent.ts:61-239` | From a fresh system with published releases of ordinary names the failed start is all that remains: the law holds throughout exactly when none occurs. |
| `StakerValues.SettingsAre` | `packages/stakers/src/execution.ts:123-166` | The settings of a slot, whole: the staker network with the aliases of the role, the core network with the full node's aliases, and the environment for a consensus client alone. |
| `StakerValues.NetworkNames` | `packages/params/src/params.ts:128-138` | The names of the staker networks. |
| `StakerValues.TakenBackWhatWasHandedOut` | `packages/stakers/src/consensus.ts:154-331` | Unsetting takes back exactly the core network aliases that the settings hand out, exactly outside consensus on starknet. |
| `StakerValues.OldClientLetsGo` | `packages/stakers/src/stakerComponent.ts:61-103` | After a completed switch no service of the previous client answers on the core network to `execution.<network>.dncore.dappnode`, or `beacon-chain.` and `validator.` for consensus. |
| `StakerValues.NewClientAnswers` | `packages/stakers/src/stakerComponent.ts:61-103` | And the chosen client's service does. |
| `StakerValues.StakingAliasStays` | `packages/stakers/src/consensus.ts:154-331` | On starknet the previous consensus client keeps `staking.<network>.dncore.dappnode`. |
| `StakerValues.AcceptedVersions` | `packages/stakers/src/stakerComponent.ts:236-262` | Which versions are compatible, number by number. |
| `StakerValues.OldVersionRefused` | `packages/stakers/src/stakerComponent.ts:61-97` | Concretely: with 1.2.3 installed and 1.10.0 required a switch is refused and changes nothing. |
| `GlobalEnvs.FindOutdated` | `packages/db/src/updatePkgsWithGlobalEnvs.ts:36-58` | The inner loop: an update is needed exactly when some service is outdated, and it is always for the container's own service. |
| `GlobalEnvs.EditServices` | `packages/db/src/updatePkgsWithGlobalEnvs.ts:90-94` | Every named service is merged, exactly when all of them exist. |
| `GlobalEnvs.SetEnvironment` | `packages/db/src/updatePkgsWithGlobalEnvs.ts:75-96` | The written file, or an error and nothing written. |
| `GlobalEnvs.UpdatePackages` | `packages/db/src/updatePkgsWithGlobalEnvs.ts:18-68` | The walk over the containers, which skips the dappmanager and goes on after a failed update. |
| `GlobalEnvs.VisitEffect` | `packages/db/src/updatePkgsWithGlobalEnvs.ts:30-68` | One visit changes at most the key of the container's own service, and nothing when it fails. |
| `GlobalEnvs.OnlyTheKeyChanges` | `packages/db/src/updatePkgsWithGlobalEnvs.ts:18-68` | No file is lost and no variable changes but the key of listed containers' own services, which can only become the new value. |
| `GlobalEnvs.ListedIsUpToDate` | `packages/db/src/updatePkgsWithGlobalEnvs.ts:18-68` | Afterwards every listed container whose update did not fail has the value, or both sides count as false. |
| `GlobalEnvs.QuietWalk` | `packages/db/src/updatePkgsWithGlobalEnvs.ts:18-68` | A walk writes nothing exactly when no concerned package has an outdated service. |
| `GlobalEnvs.ConvergesInOneWalk` | `packages/db/src/updatePkgsWithGlobalEnvs.ts:18-68` | One walk without failures is enough exactly when every outdated service of the packages it visits is listed; another service stays outdated for ever. |
| `GlobalEnvs.UnlistedServiceIsForgotten` | `packages/db/src/updatePkgsWithGlobalEnvs.ts:18-68` | Concretely: of two services with the old value only one has a listed container, and the other keeps it. |
| `GlobalValues.VisitIs` | `packages/db/src/updatePkgsWithGlobalEnvs.ts:30-96` | One visit by the values: skipped unless some service of the package has the variable with another value and not both mean no; else its own service gets the value and the file is written, unless the service is missing or the file does not pass. |
| `HttpsPortal.EnsureNetwork` | `packages/httpsPortal/src/httpsPortal.ts:264-287` | The portal is set up step by step, stopping at the first failure. |
| `HttpsPortal.AddMapping` | `packages/httpsPortal/src/httpsPortal.ts:48-85` | Set up, connect, register, persist, stopping at the first failure; nothing happens while the portal is down. |
| `HttpsPortal.GetMappings` | `packages/httpsPortal/src/httpsPortal.ts:121-149` | The alias table and the lookup of every entry; a missing port reads as 80. |
| `HttpsPortal.RemoveMapping` | `packages/httpsPortal/src/httpsPortal.ts:90-119` | The entries that match go first; the container leaves only when it has none left. How the portal matches the target that is sent against an entry's is open. |
| `HttpsPortal.MappedIsEntry` | `packages/httpsPortal/src/httpsPortal.ts:121-149` | What is reported of a container is what its entries say. |
| `HttpsPortal.AddExposes` | `packages/httpsPortal/src/httpsPortal.ts:48-85` | A completed add exposes the container in all three places, whatever the state was before. |
| `HttpsPortal.AddIsLocal` | `packages/httpsPortal/src/httpsPortal.ts:48-85` | Adding changes nothing for any other container, completed or not. |
| `HttpsPortal.AddRegisters` | `packages/httpsPortal/src/httpsPortal.ts:48-85` | A completed add leaves the container reachable under the requested subdomain exactly when it was before or had no entry at all, since the test is per container. |
| `HttpsPortal.SecondSubdomainIsLost` | `packages/httpsPortal/src/httpsPortal.ts:48-85` | Concretely: for a package exposed under `one`, adding `two` completes, changes nothing, and `two` leads nowhere. |
| `HttpsPortal.AddAgain` | `packages/httpsPortal/src/httpsPortal.ts:48-85` | Adding for an exposed container completes and changes nothing. |
| `HttpsPortal.RemoveEffect` | `packages/httpsPortal/src/httpsPortal.ts:90-119` | What removing leaves, for the container and for the others, completed or not, however the portal matches targets. |
| `HttpsPortal.StepConsistent` | `packages/httpsPortal/src/httpsPortal.ts:48-119` | A completed call keeps entry, network and file in agreement for every container, exactly when the portal deletes no other container's last entry for it. |
| `HttpsPortal.ForeignRemovalBreaks` | `packages/httpsPortal/src/httpsPortal.ts:90-119` | Concretely, with a portal that deletes by the subdomain alone: removing the subdomain of one container for another leaves it on the network without an entry. |
| `HttpsPortal.RunConsistent` | `packages/httpsPortal/src/httpsPortal.ts:48-119` | The agreement over every run of completed calls. |
| `HttpsPortal.RunReachable` | `packages/httpsPortal/src/httpsPortal.ts:48-119` | Over every run, with calls failing anywhere, no entry points to a container that is off the network. |
| `HttpsPortal.SiblingsLoseDeclaration` | `packages/httpsPortal/src/httpsPortal.ts:366-371` | Withdrawing one service leaves the file consistent exactly when no other service of the package is exposed. |
| `HttpsPortal.SiblingLosesDeclaration` | `packages/httpsPortal/src/httpsPortal.ts:366-371` | Concretely: of two exposed services one is withdrawn, and the file no longer declares the network of the other. |
| `PortalValues.AliasIs` | `packages/httpsPortal/src/domains.ts:10-13` | The alias of a container, letter by letter. |
| `PortalValues.EntryReadsBack` | `packages/httpsPortal/src/httpsPortal.ts:121-155` | An entry is listed as the mapping it was made of exactly when its port is a number other than 0, and else with port 80. |
| `PortalValues.PortLess` | `packages/httpsPortal/src/httpsPortal.ts:121-155` | An entry without a port is listed with port 80. |
| `PortalValues.AddedIsListed` | `packages/httpsPortal/src/httpsPortal.ts:48-155` | After a completed add of a container without an entry the list has one mapping more, the one asked for. |
| `PortalValues.DeletedAre` | `packages/httpsPortal/src/httpsPortal.ts:90-104` | The entries that stay after a removal, in order: all but those with its subdomain whose target the portal takes for the container. |
| `PortalValues.FileGets` | `packages/httpsPortal/src/httpsPortal.ts:373-378` | What the file gets: the public network with the alias alone, the address it had, and its other networks. |
| `PortalValues.FileLoses` | `packages/httpsPortal/src/httpsPortal.ts:366-371` | What it loses: that network, and its declaration. |
| `PortalValues.AliasInFile` | `packages/httpsPortal/src/httpsPortal.ts:48-85` | After a completed add the alias is in the file. |
| `PortalValues.AddCompletes` | `packages/httpsPortal/src/httpsPortal.ts:48-85` | An add completes exactly when every step can: network, portal, its file, joining, listing, adding, and writing; a portal that was only just connected cannot join again. |
| `SseReader.TrimAsciiWhitespace` | `packages/nexus/src/utils.ts:18-24` | The two loops drop exactly the white space at both ends. |
| `SseReader.YieldEvent` | `packages/nexus/src/api.ts:516-520` | The payloads of one event, in order. |
| `SseReader.DrainBuffer` | `packages/nexus/src/api.ts:512-521` | Every complete event of the buffer, and what is left. |
| `SseReader.ReadPayloads` | `packages/nexus/src/api.ts:502-525` | The reader, chunk by chunk. |
| `SseReader.ReadIsOnePass` | `packages/nexus/src/api.ts:502-525` | Reading chunk by chunk is one pass over the chunks with their line ends unified. |
| `SseReader.YieldedExactly` | `packages/nexus/src/api.ts:502-525` | Whatever the chunking, what has been yielded are the payloads up to the last blank line whose own line end came in one read. |
| `SseReader.ChunkIndependence` | `packages/nexus/src/api.ts:502-525` | A chunked stream yields what the whole text yields at once exactly when no payload stands between its last blank line that is not cut and the last blank line of the text. |
| `SseReader.LineCutsDoNotMatter` | `packages/nexus/src/api.ts:502-525` | So a CRLF pair that is cut changes nothing unless it ends a blank line. |
| `SseReader.UncutIndependence` | `packages/nexus/src/api.ts:502-525` | Cut anywhere but inside a CRLF pair, the reader is left as by the whole text, the buffer included. |
| `SseReader.YieldedIsPrefix` | `packages/nexus/src/api.ts:502-525` | However it is cut, what was yielded is a prefix, in order, of the stream's payloads. |
| `SseReader.NothingLost` | `packages/nexus/src/api.ts:502-525` | However it is cut, one more blank line brings out every payload. |
| `SseReader.CutPairDelays` | `packages/nexus/src/api.ts:502-525` | A cut CRLF pair really does delay an event. |
| `SseReader.PayloadsAre` | `packages/nexus/src/api.ts:512-521` | What the payloads of a text are, without the reader: one for each line that starts with `data:` and whose rest, cut of white space at both ends and nowhere else, is neither empty nor `[DONE]`, in order. |
| `SseReader.PayloadThenEnd` | `packages/nexus/src/api.ts:502-525` | Concretely: a data line and the end mark yield the payload of the one line. |
| `ToolLoop.AssemblyIsIndependent` | `packages/nexus/src/api.ts:388-399` | However the fragments of different calls are interleaved, each call is its own fragments joined. |
| `ToolLoop.JoinedMeaning` | `packages/nexus/src/api.ts:388-399` | A call's name and arguments are its fragments' in order, its id the last one given. |
| `ToolValues.CallIs` | `packages/nexus/src/api.ts:388-399` | The call at an index, from the fragments alone: their names and arguments one after the other, the last id and kind given, `function` by default; none without fragments. |
| `ToolValues.LengthIs` | `packages/nexus/src/api.ts:388-399` | The list is as long as the highest index, so a hole is an index that no fragment has. |
| `ToolValues.OneChunk` | `packages/nexus/src/api.ts:362-402` | What one chunk brings: nothing if it does not parse or has no choice; its content is forwarded only if there is some and the client listens. |
| `ToolValues.MoreChunks` | `packages/nexus/src/api.ts:362-402` | And one after the other: texts and fragments are joined, the last reason given counts, each chunk is forwarded after those before it. |
| `ToolLoop.ConsumeStream` | `packages/nexus/src/api.ts:362-402` | One streamed answer: what is forwarded, the text, the assembled calls, the last finish reason. |
| `ToolLoop.Confirm` | `packages/nexus/src/api.ts:421-424` | A confirmation is asked for with the tool and its arguments, shown, answered under its id and reported. |
| `ToolLoop.RunTool` | `packages/nexus/src/api.ts:409-450` | Each reply is the result of a dispatch of that call, with its own name and its own arguments whenever those are valid JSON (`{}` otherwise), cut after 50000 characters, or the JSON that says that the user refused it, with the reason of that refusal; a mutating tool is dispatched only after its own approval, and only for one is the user asked. |
| `ToolLoop.RunTools` | `packages/nexus/src/api.ts:409-450` | One reply per call, in order, with the same ids; it fails exactly for a hole in the list or a tool that throws. |
| `ToolLoop.RunRound` | `packages/nexus/src/api.ts:337-454` | One request and its answer, shown to the client as it comes: either a complete round follows, or a reason to stop or to fail. |
| `ToolLoop.RunChatToolLoop` | `packages/nexus/src/api.ts:326-458` | The protocol over every answer of gateway, tools, user and connection: each request carries the one before it and one complete round whose replies are the outcomes of its calls, at most 8 requests, no mutating tool without its approval, every answer shown as it comes, the end mark once and last, and no stop and no failure without a reason. |
| `ToolLoop.ChatCompletions` | `packages/nexus/src/api.ts:297-313` | The same with the error path: exactly a failed loop is reported and the stream then closed, if there is anyone to tell. |
| `History.NexusHistory.Prune` | `packages/nexus/src/api.ts:473-478` | The oldest conversations are removed one by one. |
| `History.NexusHistory.UpsertHistory` | `packages/nexus/src/api.ts:166-189` | The stored conversation or a 400 error, and the store afterwards. |
| `History.NexusHistory.GetHistory` | `packages/nexus/src/api.ts:159-164` | The stored conversation, 400 without an id, 404 for an unknown one. |
| `History.NexusHistory.DeleteHistory` | `packages/nexus/src/api.ts:191-194` | One conversation goes, or a 400 error. |
| `History.NexusHistory.ClearHistory` | `packages/nexus/src/api.ts:196-200` | Every listed conversation goes. |
| `History.NewestFirstIs` | `packages/nexus/src/api.ts:473-478` | The order used for pruning and listing is descending, a rearrangement, and stable. |
| `History.PruneIs` | `packages/nexus/src/api.ts:473-478` | Pruning leaves at most 50, no fewer than it can, and never drops a conversation more recent than one it keeps. |
| `History.Survives` | `packages/nexus/src/api.ts:473-478` | A conversation survives pruning exactly when fewer than 50 are kept before it: the more recent ones, and the equally recent ones whose keys are listed earlier. |
| `History.SurvivesByTime` | `packages/nexus/src/api.ts:473-478` | So it survives when fewer than 50 others are as recent, and not when 50 are more recent. |
| `History.UpsertedSurvives` | `packages/nexus/src/api.ts:159-189` | An upsert followed by a get: with a clock that moves on, the conversation just stored is the one that is found. |
| `History.StepKeeps` | `packages/nexus/src/api.ts:166-200` | Keys stay equal to ids, creation times stay, the bound holds, and no other conversation changes. |
| `History.RunBounded` | `packages/nexus/src/api.ts:166-200` | The bound and the keys over every run, whatever the order of the keys at each step. |
| `History.CreatedOnce` | `packages/nexus/src/api.ts:166-189` | Over every run a conversation that is never removed keeps its creation time. |
| `History.StoredThenRead` | `packages/nexus/src/api.ts:159-200` | Over every run whose upserts come at increasing times, each conversation is found right after it was stored. |
| `History.RunIgnoresOrder` | `packages/nexus/src/api.ts:166-200` | Over such a run the order in which the object lists its keys never matters: the stores are the same for all orders. |
| `History.ListIs` | `packages/nexus/src/api.ts:146-157` | The list shows every conversation once, most recent first. |
| `HistoryValues.MessagesAre` | `packages/nexus/src/api.ts:482-492` | The stored messages: one for each item that is a user's or the assistant's and has a text, in order, with its role and its text. |
| `HistoryValues.StoredIs` | `packages/nexus/src/api.ts:166-189` | What a request stores: its messages and title, else the earlier title, else one made of the messages, and the times; without an id or a list of messages it is refused with 400. |
| `HistoryValues.FiftyStay` | `packages/nexus/src/api.ts:473-478` | At most fifty conversations stay, and all when there are no more. |
| `HistoryValues.ListedIs` | `packages/nexus/src/api.ts:146-157` | What the list says of a conversation. |
| `History.CollapseWhitespace` | `packages/nexus/src/utils.ts:33-47` | The loop that squeezes white space. |
| `History.CollapseIs` | `packages/nexus/src/utils.ts:33-47` | Collapsing keeps the visible characters and leaves one line of words. |
| `History.DerivedTitle` | `packages/nexus/src/api.ts:494-500` | A derived title is never empty, fits its limit and has no line break. |
| `HistoryValues.TitleIs` | `packages/nexus/src/api.ts:494-500` | The title: the first user message as one line, cut after 80 characters with three dots; `New chat` if there is none or it is blank. |
| `HistoryValues.TrimCuts` | `packages/nexus/src/api.ts:496` | Trimming cuts the white space at both ends and nothing else. |
| `HistoryValues.CollapsedLaws` | `packages/nexus/src/utils.ts:33-47` | Any white space counts as a space, and two spaces as one. |
| `HistoryValues.CollapsedLine` | `packages/nexus/src/utils.ts:33-47` | Spaces at the ends go, and one line of words stays. |
| `HistoryValues.CollapsedBlank` | `packages/nexus/src/utils.ts:33-47` | Of white space alone nothing is left. |
| `DocsCache.NexusContext.FetchLlmsContext` | `packages/nexus/src/context.ts:93-121` | One call up to its first suspension, the fetch that throws at once included. |
| `DocsCache.NexusContext.SettleFetch` | `packages/nexus/src/context.ts:101-119` | The end of a fetch: the text is cached under the time the fetch was asked for, the field cleared, all who wait answered. |
| `DocsCache.EveryRunOrderly` | `packages/nexus/src/context.ts:93-121` | From the start and under every interleaving, at most one fetch is under way, one starts only when nothing is cached or the cache is a day old, and every caller gets the text of the last successful fetch, or nothing: every event of the run stands in that relation to the events before it. |
| `DocsCache.EveryCallAnswered` | `packages/nexus/src/context.ts:93-121` | Over every interleaving each call is answered exactly once, but for those that wait for the fetch under way. |
| `DocsCache.FetchesWhen` | `packages/nexus/src/context.ts:93-121` | A call starts a fetch exactly when none is under way, the cache is not blocked, and the last success is at least 86400000 milliseconds old. |
| `DocsCache.SuccessIsLatest` | `packages/nexus/src/context.ts:101-119` | The text of a fetch that succeeds is what everybody gets from then on: its links stripped, at most 60000 characters and a note. |
| `DocsCache.BlocksExactlyOnThrow` | `packages/nexus/src/context.ts:93-121` | The cache blocks exactly when a call that has to fetch throws at once, since the field is cleared before it is assigned. |
| `DocsCache.StuckForEver` | `packages/nexus/src/context.ts:93-121` | Once blocked, nothing is ever fetched again. |
| `DocsCache.BlockedByOneCall` | `packages/nexus/src/context.ts:93-121` | Concretely: the first call, if its fetch throws at once, whatever follows. |
| `DocsUrls.StripMdFromDocsUrls` | `packages/nexus/src/utils.ts:58-78` | The loop over the links into the documentation: each is cut to its canonical form, the text between them stays. |
| `DocsUrls.LinkStripped` | `packages/nexus/src/utils.ts:49-78` | A link in any text, letter by letter: its trailing slashes and one `.md` in upper or lower case go, whatever stands before and after it. |
| `DocsUrls.NothingStripped` | `packages/nexus/src/utils.ts:58-78` | A text without links stays as it is. |
| `DocsUrls.StripAgain` | `packages/nexus/src/utils.ts:49-78` | The links of the result are the canonical forms that still are links; and stripping again changes nothing exactly when each of them is its own canonical form. |
| `DocsUrls.NoEndingShown` | `packages/nexus/src/utils.ts:49-78` | No link of the result ends in `.md` exactly when no canonical form does, which the prompt promises of every link. |
| `DocsUrls.DoubleEndingStays` | `packages/nexus/src/utils.ts:49-78` | Concretely: a link that ends in `.md.md` keeps one. |
| `ComposeUpLock.GetContainersStatus` | `packages/dockerApi/src/dockerComposeUp.ts:125-150` | The target of every service; the last container of a service decides. |
| `ComposeUpLock.RunIs` | `packages/dockerApi/src/dockerComposeUp.ts:47-103` | The commands of a run, option by option: everything at once, or creating without a start and then starting the services, in order, that do not stay down; after a name clash taking all down and trying once more; and when it succeeds. |
| `ComposeUpLock.RunComposeUp` | `packages/dockerApi/src/dockerComposeUp.ts:47-103` | The commands of a run in order, with the retry after a rename clash. |
| `ComposeUpLock.StartsExactly` | `packages/dockerApi/src/dockerComposeUp.ts:47-103` | Exactly what a run asks to start: all services if everything is to run, else those that should run once the containers were created, and all of them when it starts over after a rename clash. With no status given, none should run. |
| `ComposeUpLock.ContainerDecides` | `packages/dockerApi/src/dockerComposeUp.ts:68-185` | From the container to the command: outside `upAll` and the core package, the service of a container left stopped (removing, exited or created, but for two core packages) is started exactly when the run starts over, and that of any other once the containers were created. |
| `ComposeUpLock.ClashStartsStopped` | `packages/dockerApi/src/dockerComposeUp.ts:93-103` | Concretely: an exited container is started again by the retry. |
| `ComposeUpLock.ComposeUpLocks.Begin` | `packages/dockerApi/src/dockerComposeUp.ts:41-46` | A run is admitted exactly when the file exists and the path is free. |
| `ComposeUpLock.ComposeUpLocks.End` | `packages/dockerApi/src/dockerComposeUp.ts:106-112` | The path is released, whether the run succeeded or failed. |
| `ComposeUpLock.EveryRunOrderly` | `packages/dockerApi/src/dockerComposeUp.ts:38-112` | From the start and over every interleaving, one run at a time on each path, refusals exactly because of a run on the same path, each run releases what it took, and no lock is left without a run. |
| `ComposeUpLock.OneRunPerPath` | `packages/dockerApi/src/dockerComposeUp.ts:38-112` | The locks are the paths of the runs under way, so all are free once all have ended. |
| `ComposeUpLock.OtherPathsDoNotMatter` | `packages/dockerApi/src/dockerComposeUp.ts:38-112` | What happens on one path does not depend on the others. |
| `Notifications.PartsConcat` | `packages/notifications/src/manifest.ts:77-87` | Splitting a condition at its operators loses nothing. |
| `Notifications.SplitIsUnique` | `packages/notifications/src/manifest.ts:77-87` | The left side, the whole first operator and the rest are the only such parts of a condition. |
| `Notifications.MergedCondition` | `packages/notifications/src/manifest.ts:76-89` | A merged condition has the new left side and operator, and the old right side if there is one. |
| `Notifications.RightSideCarried` | `packages/notifications/src/manifest.ts:76-89` | The same on the texts: the left side, the operator characters and the user's right side, joined. |
| `Notifications.MergedEndpoints` | `packages/notifications/src/manifest.ts:66-92` | The merge keeps length, order and everything else, and takes the flag and the right sides from the first old endpoint with the same id. |
| `Notifications.FirstFound` | `packages/notifications/src/manifest.ts:66-70` | Of several old endpoints with one id the first is taken. |
| `Notifications.MergeTwice` | `packages/notifications/src/manifest.ts:66-92` | Merging again with the same old list changes nothing. |
| `Notifications.MergeWithItself` | `packages/notifications/src/manifest.ts:66-92` | Merging a list with itself changes nothing exactly when endpoints with one id agree with the first of them. |
| `Notifications.DistinctMergeWithItself` | `packages/notifications/src/manifest.ts:66-92` | So it is the identity when ids are distinct. |
| `Notifications.MergeCustom` | `packages/notifications/src/manifest.ts:94-105` | Custom endpoints: flags in the result, thresholds written, endpoint by endpoint, into the metrics of the given list, whichever of them are shared. |
| `Notifications.ApartThresholds` | `packages/notifications/src/manifest.ts:94-105` | When no metric is shared, each new metric takes over the threshold of the first old endpoint of its id that has one, and no other changes. |
| `Notifications.TakenOver` | `packages/notifications/src/manifest.ts:94-105` | The flag and the threshold come from the first old endpoint of the id, the threshold if both have a metric and the old one a threshold. |
| `Notifications.AssignAll` | `packages/notifications/src/manifest.ts:120-127` | Listed positions are overwritten, later ones stay. |
| `Notifications.AssignedIs` | `packages/notifications/src/manifest.ts:120-127` | The same position by position. |
| `Notifications.UpdateEndpoints` | `packages/notifications/src/manifest.ts:112-131` | The stored lists after an update, or an error exactly when the manifest lacks what is updated. |
| `CoreVersionId.OrderDoesNotMatter` | `packages/utils/src/coreVersionId.ts:11-17` | The identifier is the same for every order in which the packages are listed. |
| `CoreVersionValues.IdentifierIs` | `packages/utils/src/coreVersionId.ts:11-17` | The identifier, character by character: for each package with a name and a version its name up to the first dot, an `@` and its version, in ascending order, joined by commas. |
| `CoreVersionValues.HeadUnique` | `packages/utils/src/coreVersionId.ts:14` | A text has only one beginning up to the first dot. |
| `CoreVersionValues.IdentifierRead` | `packages/utils/src/coreVersionId.ts:19-27` | Reading one: for each piece between commas that is not empty, the name before the first `@` with `.dnp.dappnode.eth`, and the version up to the next one. |
| `CoreVersionId.ReadBack` | `packages/utils/src/coreVersionId.ts:11-27` | Reading an identifier gives back the packages, in some order, exactly when every name is a short one with the common ending and no name or version holds a separator or is empty. |
| `CoreVersionId.IsVersionIdUpdated` | `packages/utils/src/coreVersionId.ts:34-44` | The table of current versions and the lookup of every item. |
| `CoreVersionValues.CoversIs` | `packages/utils/src/coreVersionId.ts:34-44` | A package is recent enough when the last entry of its name has a version, at least as high. |
| `CoreVersionId.UpdatedExactly` | `packages/utils/src/coreVersionId.ts:34-44` | An identifier is up to date exactly when each of its packages is there in a version at least as high. |
| `CoreVersionId.OwnIdIsUpdated` | `packages/utils/src/coreVersionId.ts:11-44` | An identifier is up to date with the packages it was made of, under a comparison in which a version is at least as high as itself. |
| `AsyncFlows.RunAtMostEveryIntervals` | `packages/utils/src/asyncFlows.ts:87-114` | Two starts are at least their interval apart and no further than the task and the pause take; a listed 0 counts as the last interval, and the caller's list is used up. |

## Left out

Contracts that say less than the code does:

- Stakers.RunSafe: a client is chosen only for the one slot it plays (`FitsSlot`), as in the tables of clients.
- Stakers.FreshRun: the same.
- ComposeRules.Validate: versions that semver reads besides MAJOR.MINOR (a leading `v`, prereleases with a third part) count as unreadable.
- AsyncFlows.RunAtMostEveryIntervals: covers runs that end with an abort, the only way the code returns.
- CoreVersionId.IsVersionIdUpdated: the comparison of versions is a parameter, so nothing is said of versions it rejects.
- CoreVersionId.UpdatedExactly: the same.
- Stakers.UnsetClient: the recreation of the containers is a step that succeeds or fails, and what Docker does in it is not modelled.

What the model abstracts from:

- Text of YAML and JSON files, paths on disk and UTF-8 decoding: values are parsed, chunks are text.
- Numbers are integers of any size or NaN; the range and rounding of floating point are not modelled.
- The order in which JavaScript lists the keys of an object is a parameter (`order`), fixed within an operation (in `GlobalEnvs`, within a walk) and free between operations; integer-like keys and inherited properties are not treated apart.
- A service network that is `null` in the object form, and a `networks` or `services` section that is not an object.
- Whether a file may be written is any test on it in `GlobalEnvs.UpdatePackages`.
- The switch that turns validation off.
- Writing to the object that was given, in `setServiceNetworksWithAliases`, is not visible in `ComposeDefaults`.
- Container and image names are a parameter of the defaults; `depends_on`, through which Docker itself may start a service, is not modelled.
- The tables of staking clients are a parameter (`Catalog`), as are the service name of an execution client and the versions it depends on; a client is chosen for the one slot it plays (`FitsSlot`).
- A failed installation leaves nothing behind; the hidden parts of the installer are not modelled.
- The portal's own code is not part of this model: which additions it refuses and how it matches the target of a removal are answers from outside. It does not stop or start within one call, and two containers do not share an alias.
- Tool-call indices that are negative or fractional; the JSON form of the events shown to the client; the quoting of a JSON string is a parameter.

What the repository does besides:

- `legacyBindVolumes` (deprecated), `domainAlias` and `fileUploads` of the user settings.
- `clearBackupBeaconNodesFromPrevClient`, which edits one variable after a switch, and MEV-Boost, signer and optimism switching.
- `connectToPublicNetwork`, `exposeByDefaultHttpsPorts` and `removeMappings`, which call the operations above.
- The system prompt, the list of installed packages and the non-streaming path of the chat.
- `getAllEndpoints` and the Gatus alert fields, which are copied.
- `memoizeDebounce`, `runOnlyOneSequentially` and `runOnlyOneReturnToAll`, wrappers of libraries.
- The user interface, telemetry, migrations, type tables and AJV schemas.
