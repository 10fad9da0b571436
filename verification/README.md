# Manageability agents and image manager: a verified model

This project models the stateful core of the in-band manageability agents (Python) and of the `trtl`
container tool (Go), and proves what that core keeps over all inputs and all runs. Every file verifies
with `dafny verify dfyconfig.toml`.

## What is modelled

| files | part of the system |
|---|---|
| `Options.dfy`, `PyStrings.dfy` | optional values; Python string operations: `find`, slices, `split` |
| `Manifest.dfy`, `Masking.dfy`, `Publisher.dfy` | escaping, tag building, the AOTA manifest, and the credential masker that edits the finished text by offsets |
| `Telemetry.dfy` | the timer that divides time by subtraction, the bounded cache, and the telemetry loop with the configuration thread interfering |
| `SoftwareBom.dfy` | publishing the software bill of materials in chunks |
| `ConfigTree.dfy`, `ConfigText.dfy`, `ConfigStore.dfy`, `ConfigCommas.dfy` | the configuration key/value store, a tree mirrored into a file, and requests on its elements |
| `ConfigAgent.dfy`, `ConfigRequests.dfy`, `ConfigUpdate.dfy` | the broker around the store with all its commands, what its requests achieve, and the dispatcher operation that sends them item by item |
| `ImageVersions.dfy`, `ImageManager.dfy` | image tags, and snapshot, rollback and delete-old over a daemon whose calls may fail |
| `JsonText.dfy`, `UpdateLog.dfy`, `OtaLifecycle.dfy` | the JSON text of the status log and of results, and a reader of it; an update from the request to the verdict after the reboot: status log, state file, FOTA installation, POTA, `do_install`, boot check |
| `OtaRuns.dfy` | runs of requests and reboots over that: when a verdict is lost, and when it reaches the log |
| `OtaConcurrency.dfy` | the one-slot request queue, the workers, and the lock shared by the update bodies and the startup tasks, as a transition system |
| `WorkloadOrchestration.dfy` | the maintenance-mode switch and its polling loop |

Objects that the source updates in place are classes (`TelemetryTimer`, `Poller`, `XmlKeyValueStore`,
`Broker`, `Daemon`, `UpdateLogger`, `StateStore`, `Device`, `Arguments`). Their methods have the
source's loops and branches. Where the behaviour is a relation between states, a method is tied to a
function on values (for instance `XmlKeyValueStore.AppendValue` to `ConfigStore.Append`), and the laws
are lemmas about that function.

What comes from outside is a parameter, so that every theorem holds for all of it:

- the XML library and schema are a record of three functions (`Library`). Where a lemma says `Lawful`, a
  written tree is assumed to read back as itself, but only if the schema accepts it or what is read back;
- `str.lower`, `int()` on a string and the text of a date are function values;
- the Docker daemon is a class whose n-th call fails, and where the n-th pulled image arrives, when
  arbitrary predicates say so;
- downloads, firmware tools, diagnostics, SOTA and AOTA bodies, failing writes of the state file and of the
  log, and poll answers are data that say how each step ends;
- telemetry readings are a function of their number, and `sys.getsizeof` of the package list is a number.

An exception is a value that says whether the enclosing handler lists it. `Step`, `Attempted`, `Outcome`
and `Exit` play that role.

## What the proofs found

These are places where the code does something other than its documentation or the natural reading. The
model follows the code, and each has a lemma or a postcondition.

- **Masking depends on the tag order.** Both fields of a pair are found before either is edited. With the
  plain tag first this is exact for all values (`MaskFieldsDocument`). With the docker tag first it is right
  exactly when the docker value is as long as the mask, or the plain value is the mask already and the
  misplaced edit hits another copy of the mask (`DockerFirstExactly`). The publisher writes the plain tags
  first, and escaping keeps values from forming tags (`MaskingCommutes`).
- **`trim_cache` with size 0 keeps everything.** The poller's limits exclude that size (`TrimCacheBound`).
- **The end marker of the software BOM is absent** exactly when the list is longer than one chunk and a
  multiple of the chunk size (`EndMarkerPresent`, `EndMarkerCanBeMissing`).
- **A rejected attribute update is never undone**: the new attribute stays and the old one goes into the
  text (`UpdateNameRejected`).
- **Loading the store's own backup file** overwrites that file before it is copied, so that file and
  tree part unless the two were equal (`LoadSound`).
- **`append` and `remove` lose characters**: a successful append keeps the stored entries exactly when
  neither text holds a comma and the stored text does not end in a closing brace (`AppendExact`), and a
  successful remove under the same condition on the stored text (`RemoveExact`). A failed append of a text
  with a comma has cut the text at the first comma, unless the schema refuses that (`AppendFails`).
- **A value with a comma can be neither appended nor removed**: what follows the comma is taken for the names
  of further elements, whose printed form then begins an item of the rewritten value. Such a request always
  fails, and may have cut the stored text before it does (`AppendOfComma`, `RemoveOfComma`).
- **Requests by path and value reach no element of a section**: without a value string, setting one succeeds
  only for a child of the root (`SetByPath`), appending takes the path for the section and announces the
  request instead of the new text (`AppendByPath`), and removing never removes anything although it may be answered OK (`RemoveByPath`).
- **A load that is answered as failed may have been carried out**: a valid file without one of the agents'
  sections is taken over, and then the announcement of its values fails (`LoadAnswered`).
- **OK does not mean carried out**: a request is answered OK exactly when it is carried out or stops at a
  part without a value, because the IndexError passes through the handler after the response has been
  chosen; the parts before are written, and nothing is announced (`AnsweredOk`, `SetRequestAnswered`).
- **A text with a carriage return** is an example of a tree that is accepted but does not read back as
  itself; then file and tree part (`UpdateTextReadsBack` says exactly when).
- **A set request that fails half-way** leaves the parts before the failing one written and announces none
  of them (`SetRequestAnswered`).
- **Version -1 is documented as a bare image name but becomes `name:-1`** (`NeverBare`).
- **Delete-old keeps the K newest versions** of images with one version each exactly when the versions are
  consecutive (`OneVersionEachKeepsNewest`; `PruningKeepsNewest` has the condition for all image lists).
  Whatever fails, it removes no tag above `highest - K` and leaves at least `min(n, K)` images
  (`ImageDeleteOld`). The tag `latest` counts as number 0 and is removed when the count-down reaches it
  (`LatestTagInWindow`).
- **Instantiating a version whose image is missing leaves two containers**: pulling creates and starts one,
  and another is created afterwards (`Instantiate`).
- **An exception that FOTA's installation does not list leaves the result as it was**: empty before success
  is assigned, success after it. The empty result is none of the two failures the POTA loop stops at, so the
  software part is still attempted (`FotaInstall`, `Pota`). "Another OTA in progress" does not stop the loop
  either.
- **The boot check compares a recorded date text with a date value, which always differ**, so the version
  alone decides whether a firmware update is reported successful. That is wrong exactly where the version
  changed and the date did not (`VersionDecides`, `UnchangedDateIsMissed`).
- **The boot check of a firmware update always settles the log to FAIL**: FAIL replaces PENDING first, and
  after that there is nothing left for SUCCESS to replace, even when success is what is reported to the
  cloud (`CheckFotaState`).
- **What loses a verdict, that is, leaves a pending log without a state file that the next boot settles it
  by.** Over every run of requests and reboots, it is exactly one of these (`Run`; `SavedExactly`,
  `UnsavedExactly` and `BootExactly` for each step):
  - a restart command carried out while an update is pending: it replaces the reason in the state file, and
    the log stays PENDING for good (`RestartThenBoot`);
  - a software update that reports success with PENDING but leaves no such state file. The source's does so
    on Windows, where taking a snapshot does nothing (sota/snapshot.py:270-276), and on Debian after a restart
    command, whose reason in the state file it keeps (sota/snapshot.py:135-138);
  - an exception in the `finally` clause of `do_install`, which leaves the log unsaved: for a firmware request,
    if removing the state file completes, exactly when the installation is begun, does not succeed, and has
    saved the log or found it pending (`UnsavedFirmware`);
  - a boot whose check after a software update ends in a DispatcherException before a verdict is written: the
    state file is cleared all the same.
- **A request between an update and the boot can overwrite its verdict**: the boot's verdict reaches the log
  exactly when every request in between left the status PENDING, that is, ended with code 200 (or with an
  exception that is not listed, in parsing) and was no update of another kind. Otherwise the log keeps what
  that request saved, FAIL or SUCCESS, whatever the boot finds (`VerdictReachesLog`).
- **A failed poll that carries an empty workload list lets an update proceed**, so "the last poll
  succeeded" is no consequence of proceeding (`FailedPollLetsProceed`, `ProceedsWhenEmpty`).
- **An answer of the orchestrator without `Workloads` stops the update even where the switch is only wanted**:
  the KeyError is not caught (`KeyErrorEscapes`).

## Model

| member | source | states |
|---|---|---|
| XmlTags.EscapeRoundTrip | inbm-lib/inbm_common_lib/utility.py:150-153 | decoding the five entities in an escaped value gives the value without its NUL characters, for every string |
| XmlTags.EscapeRemovesMarkup | inbm-lib/inbm_common_lib/utility.py:150-153 | an escaped value holds no angle bracket, quote or NUL |
| XmlTags.CreateXmlTags | inbm-lib/inbm_lib/create_xml_tags.py:10-23 | the loop's text is the rendering of one element for each named tag that is present, in the order named |
| XmlTags.XmlTagsRoundTrip | inbm-lib/inbm_lib/create_xml_tags.py:10-23 | an independent flat-XML reader recovers from that text exactly the present tags and their values without NUL, whatever the values are |
| SecurityMasker.EditTokens | inbm-lib/inbm_lib/security_masker.py:42-50 | an edit at offsets taken in one text masks the field in another text that agrees up to that field, and leaves an absent field alone |
| SecurityMasker.MaskFieldsDocument | inbm-lib/inbm_lib/security_masker.py:36-67 | with the plain field before the docker field, the two edits with offsets taken beforehand mask exactly these two fields and change nothing else |
| SecurityMasker.DockerFirstExactly | inbm-lib/inbm_lib/security_masker.py:36-67 | in the opposite order, for all values: the result is right if and only if the docker value is as long as the mask, or the plain value is the mask and the misplaced edit hits another copy of it |
| Publisher.MaskFieldsOfTags | inbm-lib/inbm_lib/security_masker.py:36-67 | masking commutes with building the manifest, for every list of tag names in which the plain tag stands before the docker tag |
| Publisher.AotaManifestTokens | inbm/cloudadapter-agent/cloudadapter/agent/publisher.py:131-157 | the manifest text of the source is the rendering of its tokens: header, the thirteen tags in their order, footer |
| Publisher.MaskingCommutes | inbm-lib/inbm_lib/security_masker.py:27-67 | masking an AOTA manifest equals building it from arguments with the four credentials replaced, for every argument set |
| Publisher.SanitizeValues | inbm/cloudadapter-agent/cloudadapter/agent/publisher.py:35-59 | succeeds exactly when every checked parameter is present with a permitted value ignoring case; acceptable parameters get the permitted spelling even when it fails, all others stay |
| Publisher.PopRename | inbm/cloudadapter-agent/cloudadapter/agent/publisher.py:123-129 | takes a parameter out and stores a non-empty value under its other name |
| Publisher.ManifestRead | inbm/cloudadapter-agent/cloudadapter/agent/publisher.py:131-157 | a reader of the manifest finds every argument, without NUL, under its own name and none in the frame around the arguments |
| Publisher.AotaPublisher.PublishAota | inbm/cloudadapter-agent/cloudadapter/agent/publisher.py:108-160 | sends one manifest exactly when both checked parameters are acceptable, else nothing; a reader finds in it the permitted spellings of `app` and `cmd`, the values of `container_tag` and `device_reboot` (if given) under `containerTag` and `deviceReboot`, and the other nine parameters as they were |
| TelemetryTiming.IntervalsUnique | inbm/telemetry-agent/telemetry/telemetry_handling.py:112-122 | ticks and remainder, found by subtraction, are quotient and remainder of the time divided by the interval |
| TelemetryTiming.Drain | inbm/telemetry-agent/telemetry/telemetry_handling.py:115-122 | the subtraction loop ends, its ticks times the interval plus what is left is the time it began with, and what is left is below the interval |
| TelemetryTiming.TelemetryTimer.SetCollectTime | inbm/telemetry-agent/telemetry/telemetry_handling.py:73-82 | a changed interval keeps the time balance of both counters |
| TelemetryTiming.TelemetryTimer.SetPublishTime | inbm/telemetry-agent/telemetry/telemetry_handling.py:84-92 | the same for the other interval |
| TelemetryTiming.TelemetryTimer.SleepAndCount | inbm/telemetry-agent/telemetry/telemetry_handling.py:94-122 | for any history of intervals, the time slept is the sum of the interval in force at each tick plus the remainder, separately for both counters; afterwards each remainder is below the interval used |
| TelemetryTiming.TelemetryTimer.TimeToPublish | inbm/telemetry-agent/telemetry/telemetry_handling.py:124-133 | takes one tick off when there is one, and the balance stays |
| TelemetryTiming.TelemetryTimer.TimeToCollect | inbm/telemetry-agent/telemetry/telemetry_handling.py:135-144 | the same for collection |
| TelemetryPolling.TrimCacheBound | inbm/telemetry-agent/telemetry/cache_policy.py:10-24 | trimming keeps a suffix; it has the promised size if and only if the size is positive or the list is empty |
| TelemetryPolling.PositionsIncrease | inbm/telemetry-agent/telemetry/poller.py:138-144 | the positions of published bundles strictly increase: nothing is published twice, and order of collection is kept |
| TelemetryPolling.PublishSpan | inbm/telemetry-agent/telemetry/poller.py:138-144 | publishing the cached suffix appends one more disjoint contiguous run to the published stream |
| TelemetryPolling.FewTicks | inbm/telemetry-agent/telemetry/poller.py:37-47 | a wait of a second adds at most four ticks, from any remainder below the longest interval to any interval from the shortest on |
| TelemetryPolling.Poller.SetConfigurationValue | inbm/telemetry-agent/telemetry/poller.py:56-116 | each setting changes exactly when the message is for it and carries an integer within its limits (or names the switch), and everything stays within the limits |
| TelemetryPolling.Poller.Configure | inbm/telemetry-agent/telemetry/poller.py:74-116 | after any messages each setting has the value of the last acceptable one |
| TelemetryPolling.Poller.Trim | inbm/telemetry-agent/telemetry/poller.py:133-133 | the cache shrinks to the limit, what exceeded it is counted as trimmed, and every bundle collected is still published, cached or counted |
| TelemetryPolling.Poller.CollectOne | inbm/telemetry-agent/telemetry/poller.py:135-137 | the next reading is collected and cached, nothing is lost |
| TelemetryPolling.Poller.CollectDue | inbm/telemetry-agent/telemetry/poller.py:135-137 | exactly one bundle is collected for every due tick |
| TelemetryPolling.Poller.PublishDue | inbm/telemetry-agent/telemetry/poller.py:138-144 | if a tick is due the whole cache is published once, in order, and emptied; otherwise nothing changes |
| TelemetryPolling.Poller.CountDown | inbm/telemetry-agent/telemetry/poller.py:159-171 | each countdown fires exactly at zero, restarts from its interval, counts down otherwise, and stays within it |
| TelemetryPolling.Poller.WaitCollect | inbm/telemetry-agent/telemetry/poller.py:134-134 | with configuration changes before and during the wait, a second is slept; ticks of both kinds are added for the intervals in force before it, at most four for collection, and what is left over is below these intervals; all settings have their last accepted values |
| TelemetryPolling.Poller.LoopPass | inbm/telemetry-agent/telemetry/poller.py:132-171 | in one pass, with interference anywhere: exactly what exceeds the last accepted cache size is dropped; the list is what is left plus one bundle for each of at most four ticks; if a publication tick fired, exactly that list, the latest readings in order, is published and the list is empty, else nothing is published; ticks, settings and both countdowns are those of the last accepted messages |
| TelemetryPolling.Poller.LoopTelemetry | inbm/telemetry-agent/telemetry/poller.py:118-171 | over any number of passes and any interference: the published stream is, in order, the whole list of each pass in which a publication tick fired; dropped is only what a pass found beyond its cache size, which is the last accepted one; the rest is cached; one bundle per tick, one second per pass, no list above the cache size plus four |
| SoftwareBom.ChunkSizeBounds | inbm/telemetry-agent/telemetry/software_bom_list.py:87-91 | a chunk is never empty nor longer than the list; within the limit it is the list, over it the least size that reaches 2500 average bytes |
| SoftwareBom.ChunksDescribed | inbm/telemetry-agent/telemetry/software_bom_list.py:92-104 | chunks are numbered from 1, all but the last are full, and together they are the list; the end marker is where the lemma below says |
| SoftwareBom.ChunksCount | inbm/telemetry-agent/telemetry/software_bom_list.py:93-93 | the number of chunks is the ceiling of the length divided by the chunk size |
| SoftwareBom.PublishChunks | inbm/telemetry-agent/telemetry/software_bom_list.py:92-104 | the loop sends the chunks that the rows above describe |
| SoftwareBom.PublishSoftwareBom | inbm/telemetry-agent/telemetry/software_bom_list.py:86-109 | a list of at most 2500 bytes is one message with the end marker; a longer one is sent in chunks of the least number of packages that reaches 2500 bytes at the least whole average covering the list, numbered from 1, complete and in order, in the least number of messages, the end marker as described; an empty list is one message that says so |
| SoftwareBom.EndMarkerPresent | inbm/telemetry-agent/telemetry/software_bom_list.py:98-102 | a chunk carries the end marker if and only if the list is one chunk or no multiple of the chunk size |
| SoftwareBom.EndMarkerCanBeMissing | inbm/telemetry-agent/telemetry/software_bom_list.py:98-102 | a list for which no chunk carries it: 556 packages, 4504 bytes |
| ConfigTree.SetAtElsewhere | inbm/configuration-agent/configuration/xml_key_value_store.py:291-296 | overwriting one element changes its own value and no other element |
| ConfigTree.FindUnaffected | inbm/configuration-agent/configuration/xml_key_value_store.py:307-311 | writing values never changes which element a path denotes |
| ConfigTree.FindFirst | inbm/configuration-agent/configuration/xml_key_value_store.py:307-311 | the element found for a path is one that the path leads to and the first such in document order, and one is found whenever there is one |
| ConfigTree.LastParentLast | inbm/configuration-agent/configuration/xml_key_value_store.py:332-352 | the section found for a tag is the tag of the parent of the last element in document order that carries the tag, and one is found whenever there is such an element below the root |
| ConfigText.EntriesAppended | inbm/configuration-agent/configuration/xml_key_value_store.py:199-201 | the text `append` writes lists the old entries and then those of the value |
| ConfigText.EntriesRemoved | inbm/configuration-agent/configuration/xml_key_value_store.py:228-236 | a value that is not empty is among the trimmed lines exactly when it is an entry, and for every value the rewritten text lists the entries without its first occurrence |
| ConfigText.RemoveFirstIs | inbm/configuration-agent/configuration/xml_key_value_store.py:230-230 | removing a value from a list takes out its first occurrence and nothing else, and nothing if it is not in the list |
| ConfigStore.UpdateTextSound | inbm/configuration-agent/configuration/xml_key_value_store.py:281-305 | a text update is accepted exactly when the schema accepts the new tree, otherwise tree and file are as before; file and tree agree and are valid afterwards |
| ConfigStore.UpdateTextReadsBack | inbm/configuration-agent/configuration/xml_key_value_store.py:281-305 | without the law of the library: they agree afterwards if and only if the update is rejected or the new tree reads back as itself |
| ConfigStore.UpdateNameRejected | inbm/configuration-agent/configuration/xml_key_value_store.py:291-305 | a rejected attribute update leaves the new attribute and puts the old one into the text; the store stays valid exactly when the schema accepts that tree |
| ConfigStore.UpdateNameAccepted | inbm/configuration-agent/configuration/xml_key_value_store.py:291-305 | an accepted attribute update changes that one value and keeps the store valid |
| ConfigStore.SetItemsSound | inbm/configuration-agent/configuration/xml_key_value_store.py:146-170 | a set of several elements keeps the store valid, and a failing one leaves exactly the items before it applied |
| ConfigStore.LoadSound | inbm/configuration-agent/configuration/xml_key_value_store.py:102-122 | a load succeeds exactly for a valid file, keeps the previous file as the backup, changes nothing when it fails, and keeps file and tree in agreement unless the file is the backup itself with other contents |
| ConfigStore.AppendActs | inbm/configuration-agent/configuration/xml_key_value_store.py:189-202 | through printing, stripping and splitting, `append` to a text without commas but at its end is one text update that adds the value's entries to those of the text less closing braces and commas at its end; the schema decides whether it is accepted |
| ConfigStore.AppendExact | inbm/configuration-agent/configuration/xml_key_value_store.py:189-202 | a successful `append` gives the old entries and then the value's if and only if neither holds a comma and the stored text does not end in a closing brace |
| ConfigCommas.AppendFails | inbm/configuration-agent/configuration/xml_key_value_store.py:189-202 | a failed `append` leaves the tree alone if and only if the schema refuses what is written first or nothing is: for a value without commas, the text less its dropped end has no comma or its part before the first comma is refused; for a value with one, a later part names no element or the closed text, cut at its first comma, is refused |
| ConfigCommas.AppendOfComma | inbm/configuration-agent/configuration/xml_key_value_store.py:189-202 | appending a value that holds a comma never succeeds, and exactly when it leaves the tree alone |
| ConfigCommas.RemoveOfComma | inbm/configuration-agent/configuration/xml_key_value_store.py:204-242 | removing a value that holds a comma never succeeds; it leaves the tree alone if and only if it is refused before anything is written or the schema refuses what it writes first |
| ConfigStore.RemoveActs | inbm/configuration-agent/configuration/xml_key_value_store.py:204-242 | for every stored text and every value without commas, empty or not: `remove` fails without effect when the value is not listed in the text less its dropped end; otherwise it writes the entries without the first occurrence, and if no comma is left the schema decides |
| ConfigStore.RemoveExact | inbm/configuration-agent/configuration/xml_key_value_store.py:204-242 | a successful `remove` takes the first occurrence from the stored entries if and only if the stored text has no comma and does not end in a closing brace |
| ConfigStore.AppendThenRemove | inbm/configuration-agent/configuration/xml_key_value_store.py:189-242 | removing a value just appended, and not listed before, restores the entries, unless the schema refuses the rewritten text; then the tree stays |
| ConfigStore.SetItemsAnnounce | inbm/configuration-agent/configuration/xml_key_value_store.py:158-170 | a successful request announces exactly its own writes, in order |
| ConfigStore.DecodeEncode | inbm/configuration-agent/configuration/broker.py:243-252 | the broker reads back exactly the announced writes if and only if no path or value holds a semicolon and no path a colon |
| ConfigStore.RunSound | inbm/configuration-agent/configuration/xml_key_value_store.py:102-315 | over every run of text sets, appends, removals and loads of other files than the backup, the file parses to the tree in memory and is valid |
| ConfigAgent.XmlKeyValueStore.UpdateFile | inbm/configuration-agent/configuration/xml_key_value_store.py:281-305 | writes, validates and puts back in place as the specification function does, attribute and text alike |
| ConfigAgent.XmlKeyValueStore.SetElement | inbm/configuration-agent/configuration/xml_key_value_store.py:146-170 | the loop over the items stops at the first failure, with the specified store and announcement |
| ConfigAgent.XmlKeyValueStore.GetElement | inbm/configuration-agent/configuration/xml_key_value_store.py:124-144 | the loop prints the specified elements or raises the specified exception |
| ConfigAgent.XmlKeyValueStore.AppendValue | inbm/configuration-agent/configuration/xml_key_value_store.py:189-202 | store and result are those of the specification of `append` |
| ConfigAgent.XmlKeyValueStore.RemoveValue | inbm/configuration-agent/configuration/xml_key_value_store.py:204-242 | store and result are those of the specification of `remove` |
| ConfigAgent.XmlKeyValueStore.LoadFile | inbm/configuration-agent/configuration/xml_key_value_store.py:102-122 | store and result are those of the specification of `load`, also when the old file is gone |
| ConfigAgent.XmlKeyValueStore.GetChildren | inbm/configuration-agent/configuration/xml_key_value_store.py:172-187 | the loop builds the specified dictionary from tags to texts, or raises when the path leads nowhere |
| ConfigAgent.Broker.PublishNewValues | inbm/configuration-agent/configuration/broker.py:243-252 | publishes the decoded pairs in order, up to a part without a colon |
| ConfigAgent.Broker.PublishInitialValues | inbm/configuration-agent/configuration/broker.py:233-257 | the two loops publish the values of the sections in order, up to the first section that is missing |
| ConfigAgent.Broker.ExecuteRequest | inbm/configuration-agent/configuration/broker.py:73-231 | the new store, the notifications and the response of any request: get, set, append, remove and load, by path, value or value string, unknown commands, and every exception |
| ConfigRequests.AppendServed | inbm/configuration-agent/configuration/broker.py:150-163 | a request to append to an element of a section whose text has no comma and no closing brace at its end: the response is OK if and only if the schema accepts the text with the value on a line of its own; then that text is in the tree and the valid file, lists the old entries and the value's, is exactly what is announced if and only if it holds no semicolon, and no other element changes; otherwise nothing changes and nothing is announced |
| ConfigRequests.RemoveServed | inbm/configuration-agent/configuration/broker.py:165-179 | a request to remove from such an element: OK if and only if the value is listed and the schema accepts the rewritten text; then exactly its first entry is gone, with the same about file, other elements and announcement; otherwise nothing changes |
| ConfigRequests.SetServed | inbm/configuration-agent/configuration/broker.py:185-212 | a set request of several parts that is answered OK gives every element of its section the last value that a part names for it, and leaves the others |
| ConfigRequests.SetOrchestrator | inbm/configuration-agent/configuration/broker.py:203-212 | setting the orchestrator sets its attribute; OK if and only if the schema accepts it, and a rejected value stays in the attribute with the old one in the text |
| ConfigRequests.GetOrchestrator | inbm/configuration-agent/configuration/broker.py:214-231 | reading the orchestrator answers with its attribute |
| ConfigRequests.GetByBoth | inbm/configuration-agent/configuration/broker.py:84-127 | with a path and a value string, the string decides about the section and the path is what is read in it |
| ConfigRequests.AppendByPath | inbm/configuration-agent/configuration/broker.py:150-163 | an append by path and value appends to the element that the value names in the section that the path names, and announces the request itself |
| ConfigRequests.SetByPath | inbm/configuration-agent/configuration/broker.py:185-212 | a set by path and value, with or without a value string: the response is OK if and only if some element carries the name looked for, an element is found by the path alone and the schema accepts the value; then that value is changed and announced, else nothing is; without a value string no element inside a section is reached |
| ConfigRequests.RemoveByPath | inbm/configuration-agent/configuration/broker.py:165-179 | a remove by path and value never changes the store and announces nothing; the response is OK if and only if the path leads to an element with a child |
| ConfigRequests.SetThenGet | inbm/configuration-agent/configuration/broker.py:185-231 | an element of a section that is set is read back, by path and by value string, with the new value if the response was OK, which is exactly if the schema accepts it, and with the old one otherwise |
| ConfigRequests.LoadAnswered | inbm/configuration-agent/configuration/broker.py:181-183 | a load is answered OK if and only if the file is valid and has every section of the agents; the tree is the new one exactly if the file is valid; announced is exactly the last text for each tag, in the sections before the first that is missing |
| ConfigAgent.SetRequestAnswered | inbm/configuration-agent/configuration/broker.py:185-212 | the response is OK exactly when every part was written or a part without a value was reached; the notifications are exactly the writes in the first case and none otherwise; an incomplete request leaves a proper prefix written |
| ConfigAgent.IndexErrorExactly | inbm/configuration-agent/configuration/xml_key_value_store.py:159-170 | setting several items ends in an IndexError if and only if an item without a colon is reached |
| ConfigAgent.AnsweredOk | inbm/configuration-agent/configuration/broker.py:84-127 | for every set, append and remove request: the response is OK if and only if the section is found and the request is carried out or stops at a missing value; in the second case nothing is announced. What being carried out does to the store is the subject of the `Served` rows below |
| ConfigUpdate.TextLists | inbm/dispatcher-agent/dispatcher/config/config_operation.py:112-145 | the text that a list of append or remove items leaves lists the entries one gets by applying the items to the entries |
| ConfigUpdate.ToldRun | inbm/dispatcher-agent/dispatcher/config/config_operation.py:112-145 | such requests, all answered OK, announce in turn exactly the new text of the element each names |
| ConfigUpdate.UpdateConfigItems | inbm/dispatcher-agent/dispatcher/config/config_operation.py:112-145 | OK means every item was sent and answered OK; any other end means exactly the items before the refused one, and that one if it was sent, took effect; which items are refused unsent. For `append` and `remove` of listed values, however it ends: every list element of every section has its old entries with those of the accepted items appended or removed in turn, a refused item has done nothing, the file is valid, and the announcements are the new texts. After OK for a set command, notifications and file are as in the last row of this component |
| ConfigAgent.SetItemsKeepSections | inbm/configuration-agent/configuration/xml_key_value_store.py:332-352 | writing values never changes the section an element belongs to |
| ConfigUpdate.SetCommandAnnounced | inbm/dispatcher-agent/dispatcher/config/config_operation.py:112-145 | when all items of a set command are answered OK, the notifications are exactly the writes of the items whose parts all have a value, in order, and the file is valid |
| VersionText.ItoaRoundTrip | inbm/trtl/realdocker/realdocker.go:52-52 | reading a written version number gives it back, for every 64-bit integer |
| Docker.ImageTagVersion | inbm/trtl/realdocker/find.go:20-32 | the version read from a written tag is the version, except that `latest` has none |
| Docker.ImageTagInjective | inbm/trtl/realdocker/find.go:20-32 | different versions have different tags |
| Docker.NeverBare | inbm/trtl/realdocker/find.go:18-32 | no version gives the bare name, though the comment promises it for -1 |
| ImageManager.FindContainer | inbm/trtl/realdocker/find.go:52-76 | finds a container exactly when there is one, and then one of the most recently created |
| ImageManager.Stop | inbm/trtl/realdocker/stop.go:56-86 | stops the latest container of an image and nothing else, or changes nothing |
| ImageManager.RemoveContainer | inbm/trtl/realdocker/remove.go:61-78 | removes that one container; fails only if a call fails or it runs and force is off |
| ImageManager.RemoveLatestContainerFromImage | inbm/trtl/realdocker/remove.go:96-112 | removes the latest container of an image and nothing else, or changes nothing |
| ImageManager.FindLatestImage | inbm/trtl/realdocker/realdocker.go:48-60 | the loop finds the highest version among the first tags, at least 0 |
| Docker.LatestIsHighest | inbm/trtl/realdocker/realdocker.go:48-60 | no listed first tag has a higher version, and unless it is 0 one has this version |
| ImageManager.GetLatestImageVersionNumber | inbm/trtl/realdocker/realdocker.go:31-46 | the latest version, or an error exactly when a call fails or no image is listed |
| ImageManager.DeleteVersion | inbm/trtl/realdocker/delete.go:46-66 | on success one container of the version and its tag are gone; on failure no image is; other containers are never touched |
| ImageManager.ImageDeleteOld | inbm/trtl/realdocker/delete.go:13-74 | on every exit: no tag above highest minus K is lost, no container of another image is touched, at least min(n, K) images remain; on success exactly the looked-for tags are gone, each with one container; success is certain if no call fails and each has a container |
| ImageManager.KeepsNewest | inbm/trtl/realdocker/delete.go:27-33 | removing the versions counted down from highest minus K leaves the K newest if and only if the versions are consecutive |
| ImageManager.PruningKeepsNewest | inbm/trtl/realdocker/delete.go:13-74 | for every image list: a successful pruning leaves exactly the K newest versions if and only if K of them are outside the window counted down, and none is below it or none is in it |
| ImageManager.OneVersionEachKeepsNewest | inbm/trtl/realdocker/delete.go:13-74 | for images with one version tag each this means that the versions were consecutive |
| ImageManager.LatestTagInWindow | inbm/trtl/realdocker/delete.go:34-37 | the tag `latest` is among those removed exactly when the count-down reaches 0 |
| ImageManager.KeepWithinLimits | inbm/trtl/trtl.go:403-422 | the number of images to keep ends up between 1 and 4, and is untouched if it was |
| ImageManager.NewestSurvives | inbm/trtl/trtl.go:403-422 | with that clamp the newest version survives every pruning, complete or not |
| Docker.CommitSource | inbm/trtl/realdocker/commit.go:46-52 | after a commit the image that carries the tag is the new one, made from the container committed |
| ImageManager.CommitLatest | inbm/trtl/realdocker/snapshot.go:30-51 | committing the successor of the latest version makes it the latest |
| ImageManager.Pull | inbm/trtl/realdocker/pull.go:48-60 | on success the latest container of the image runs, and nothing else changed but the image; if there was none, a running one is added; on every other exit at most the image and that container are |
| ImageManager.Start | inbm/trtl/realdocker/start.go:17-49 | success means that the latest container runs, whether or not starting it failed, or a new one if there was none; nothing else changes on any exit; success is certain if no call fails and there is a container or an image |
| ImageManager.Instantiate | inbm/trtl/realdocker/instantiate.go:20-60 | returns the latest container of the version, or a new one, with a second one left behind when the image had to be pulled; no container is lost; success is certain if no call fails and there is a container or an image |
| ImageManager.Snapshot | inbm/trtl/realdocker/snapshot.go:17-51 | adds the successor's image to the images there were, pulling the version only when it had neither container nor image; every image that carries the successor's tag then comes from the version's latest container, or from the one created last if there was none; a failed snapshot adds at most the pulled image; success is certain if no call fails and there is a container or an image |
| ImageManager.AutoSnapshots | inbm/trtl/factory/docker.go:154-170 | k automatic snapshots from latest version v create v+1 to v+k, each committed from a container of the version before it, make v+k the latest and lose no tag, also when a later one fails |
| ImageManager.RemoveVersionContainer | inbm/trtl/realdocker/rollback.go:43-64 | on success the version's latest container is gone, if it had one; other images' containers are untouched on every exit; success is certain if no call fails and creation times differ |
| ImageManager.Rollback | inbm/trtl/realdocker/rollback.go:16-64 | without a container of the older version nothing changes; on every exit only these two versions' containers may have changed, and the newer image is lost exactly on success, when the older version's latest container runs and the newer has one container fewer; success is certain if no call fails, the older version has a container and the newer an image |
| ImageManager.SnapshotThenRollback | inbm/trtl/realdocker/rollback.go:16-32 | a snapshot and its rollback restore the images and leave the containers as they were, with the version's latest one running; both succeed if no call fails |
| JsonText.EscapeContains | inbm/dispatcher-agent/dispatcher/update_logger.py:36-45 | JSON escaping neither hides nor makes a word of capital letters, for every string |
| JsonText.ResultTextContains | inbm/dispatcher-agent/dispatcher/common/result_constants.py:26-45 | the text of a result holds such a word exactly when its message does |
| JsonText.EscapeRead | inbm/dispatcher-agent/dispatcher/update_logger.py:36-45 | a JSON reader (RFC 8259, section 7) gets every string back from its escaped form, surrogate pairs included |
| JsonText.MembersRead | inbm/dispatcher-agent/dispatcher/update_logger.py:36-45 | the reader gets names and values of an object of strings back, in order |
| JsonText.ResultRead | inbm/dispatcher-agent/dispatcher/common/result_constants.py:26-45 | status and message are read back from the text of a result |
| UpdateLog.LogRead | inbm/dispatcher-agent/dispatcher/update_logger.py:36-45 | the reader finds each field of the record under its own name in the saved log, whatever the texts are |
| UpdateLog.VerdictReplaces | inbm/dispatcher-agent/dispatcher/update_logger.py:54-65 | where only the status is pending, replacing PENDING by a verdict gives the log with that status and nothing else changed |
| UpdateLog.RenderLogPending | inbm/dispatcher-agent/dispatcher/update_logger.py:36-45 | the saved log says PENDING exactly when its status, type, manifest or error does |
| UpdateLog.ReplaceRemoves | inbm/dispatcher-agent/dispatcher/update_logger.py:54-65 | replacing a pattern by a text that cannot take part in a new occurrence leaves no occurrence |
| UpdateLog.ResolvesOnce | inbm/dispatcher-agent/dispatcher/update_logger.py:54-65 | after one verdict nothing is pending, and any later verdict changes nothing |
| UpdateLog.SettledStays | inbm/dispatcher-agent/dispatcher/update_logger.py:54-65 | a log that is not pending is not changed by a verdict |
| UpdateLog.UpdateLogger.SaveLog | inbm/dispatcher-agent/dispatcher/update_logger.py:36-52 | the file becomes the rendering of the current record, or is what a failed write leaves |
| UpdateLog.UpdateLogger.UpdateLog | inbm/dispatcher-agent/dispatcher/update_logger.py:54-73 | a file that can be read and has content becomes the resolved file, or is what a failed write leaves; any other stays |
| OtaLifecycle.StateStore.Write | inbm/dispatcher-agent/dispatcher/common/dispatcher_state.py:88-107 | merges values into a readable file; fails exactly on an unreadable file or a failed write, and then the file is as before or unreadable |
| OtaLifecycle.StateStore.Consume | inbm/dispatcher-agent/dispatcher/common/dispatcher_state.py:59-85 | reads the values, or nothing from a missing or unreadable file |
| OtaLifecycle.Device.FotaInstall | inbm/dispatcher-agent/dispatcher/fota/fota.py:98-187 | the result is success exactly when the firmware was handed over, the state file written, and then: with hold, no listed exception of the last report is handled; without it, the reboot timer was started if asked for. Success leaves the right restart reason, after PENDING was logged; any other result no state file, if removing it does not raise; a reboot is scheduled only without hold and after both; listed exceptions give failure, others leave the result as it was |
| OtaLifecycle.MessageBySteps | inbm/dispatcher-agent/dispatcher/fota/fota.py:98-187 | the result by the steps in their order: the failure if and only if the first step that raises raises a listed exception and reporting it completes; success if and only if every step up to the assignment succeeds and no listed exception of the report of the hold is handled |
| OtaLifecycle.SuccessRecords | inbm/dispatcher-agent/dispatcher/fota/upgrade_checker.py:55-57 | after a successful installation the state file holds the version and date of the firmware that ran, and the reason for the restart |
| OtaLifecycle.Device.FotaConclude | inbm/dispatcher-agent/dispatcher/fota/fota.py:150-169 | the order of log, state file and reboot, how the first failure among them ends it, and whether success was assigned before |
| OtaLifecycle.Device.FotaStart | inbm/dispatcher-agent/dispatcher/ota_thread.py:94-119 | result, log, state file and order of events for every attempt, whether the lock is lost, the tool raises or the installation ends in any way; the software body never runs |
| OtaLifecycle.OutcomeExactly | inbm/dispatcher-agent/dispatcher/ota_thread.py:94-119 | which exit is taken when: in-progress exactly when the lock is lost, OTA failure exactly for a FotaError in setting up or in the last steps of the installation, success exactly for an installation that succeeds and ends |
| OtaLifecycle.Device.ValidatePotaManifest | inbm/dispatcher-agent/dispatcher/dispatcher_class.py:400-429 | nothing but checks happens, in order, and success means every part present was checked |
| OtaLifecycle.Device.Pota | inbm/dispatcher-agent/dispatcher/dispatcher_class.py:311-325 | all checks precede all installations, firmware precedes software, and software is attempted if and only if there is no firmware part or it ended with a result other than the two failures; an exception in the software part keeps the firmware's result; code 200, log, status and state file for every way each part can end |
| OtaLifecycle.Device.Conclude | inbm/dispatcher-agent/dispatcher/dispatcher_class.py:336-366 | the result and the saved status and error for every way the attempt can end, and when an exception in the `finally` clause leaves the log unsaved |
| OtaLifecycle.PrefixesDropped | inbm/dispatcher-agent/dispatcher/dispatcher_class.py:333-350 | the error in the log is the text of the exception without what the handlers put before it in the result |
| OtaLifecycle.Device.DoInstall | inbm/dispatcher-agent/dispatcher/dispatcher_class.py:273-366 | for every manifest: code 200 exactly when its parts succeed; unless the `finally` clause raises, the log is saved last with FAIL for every listed failure, SUCCESS for 200 of another kind of request, and what the attempt left of the status for 200 after an update with a reboot; if it raises, the log file is what the attempt left; the state file in every case; type, time and manifest recorded for updates and left alone otherwise |
| OtaLifecycle.Device.CheckSotaState | inbm/dispatcher-agent/dispatcher/dispatcher_class.py:637-654 | a pending log becomes SUCCESS if and only if the diagnosis passes and the update code for a healthy system ends well without having written FAIL; FAIL if and only if one of the two branches writes it first or the unhealthy one, tried after a failed diagnosis or a DispatcherException of the other, ends well; else it stays; which exception ends the check |
| OtaLifecycle.Device.CheckFotaState | inbm/dispatcher-agent/dispatcher/dispatcher_class.py:656-699 | the verdict is that of `FirmwareVerdict`, but the log always says FAIL |
| OtaLifecycle.VersionDecides | inbm/dispatcher-agent/dispatcher/dispatcher_class.py:667-699 | the verdict is success if and only if both keys are recorded, the firmware is known and the version changed: the dates compared are never equal |
| OtaLifecycle.UnchangedDateIsMissed | inbm/dispatcher-agent/dispatcher/dispatcher_class.py:656-699 | the promise that version and date both changed is kept if and only if it is not the case that the version changed and the date did not |
| OtaLifecycle.ReasonsWritten | inbm/dispatcher-agent/dispatcher/dispatcher_class.py:701-734 | what the boot looks after for each reason that the agents write: fota, pota, sota with a command, restart_cmd, and for a file without a reason |
| OtaLifecycle.Device.CheckDispatcherStateInfo | inbm/dispatcher-agent/dispatcher/dispatcher_class.py:701-734 | a file that names firmware makes the log FAIL and sends the verdict on the firmware; one that only names software settles the log as in the row above; any other leaves it; how the check ends, and that the file is cleared exactly if it completes |
| OtaLifecycle.Device.Reboot | inbm/dispatcher-agent/dispatcher/dispatcher_class.py:184-196 | for every boot: the log and the verdict sent as in the row above, whoever writes them; the state file is cleared unless an exception other than a DispatcherException ends the check after a software update |
| OtaRuns.Run | inbm/dispatcher-agent/dispatcher/dispatcher_class.py:273-366 | over every run of requests, returning or not, and of boots, however they end: a pending log comes throughout with a state file that the next boot settles it by, if and only if no operation of the run loses a verdict; until then every boot whose check completes settles the log |
| OtaRuns.SavedExactly | inbm/dispatcher-agent/dispatcher/dispatcher_class.py:348-366 | a request that returns leaves a pending log that the next boot does not settle if and only if it is a restart command carried out while an update is pending, or a successful update whose software part leaves PENDING without a state file for it |
| OtaRuns.UnsavedExactly | inbm/dispatcher-agent/dispatcher/dispatcher_class.py:348-366 | for a request of any kind whose `finally` clause raises: when it loses a verdict, exactly; firmware and platform requests, software bodies, restart commands |
| OtaRuns.UnsavedFirmware | inbm/dispatcher-agent/dispatcher/fota/fota.py:172-187 | a firmware request whose `finally` clause raises leaves the log pending with no state file if and only if the installation is begun, does not succeed, and has saved the log or found it pending, if removing the state file completes |
| OtaRuns.BootExactly | inbm/dispatcher-agent/dispatcher/dispatcher_class.py:184-196 | a boot loses a verdict if and only if its check after a software update ends in a DispatcherException before a verdict is written; a check that completes settles the log and clears the file |
| OtaRuns.OperateRequest | inbm/dispatcher-agent/dispatcher/dispatcher_class.py:273-366 | any request keeps a verdict recoverable if and only if it is none of those that lose one; after one that returns the log says PENDING exactly when the status does |
| OtaRuns.RestartThenBoot | inbm/dispatcher-agent/dispatcher/dispatcher_class.py:239-245 | after any restart command and a boot whose check completes, the log is pending if and only if the command was carried out while the status was PENDING and the last update was of a kind with a reboot |
| OtaRuns.VerdictReachesLog | inbm/dispatcher-agent/dispatcher/dispatcher_class.py:348-366 | from an update that left PENDING and a state file, through any list of requests of other kinds, to a boot whose check completes: if each of them ended with code 200 and was no update, the log is the saved one with the status SUCCESS or FAIL in place of PENDING, SUCCESS if and only if there is no firmware to check, the diagnosis passes and the update code ends well without having written FAIL; otherwise it is the one they saved last |
| OtaRuns.FirmwareThenBoot | inbm/dispatcher-agent/dispatcher/dispatcher_class.py:656-699 | after a firmware request that succeeds, whatever the state file said before, the next boot reports success if and only if the firmware then reported has another version than the one that ran, and leaves the log with the status FAIL |
| OtaConcurrency.StepKeepsLock | inbm/dispatcher-agent/dispatcher/ota_thread.py:94-119 | every atomic action keeps: the lock is held by exactly the thread inside |
| OtaConcurrency.StepKeepsQueue | inbm/dispatcher-agent/dispatcher/dispatcher_class.py:469-484 | every atomic action keeps: queued requests are those taken, in order, each by a worker of its own, and at most one waiting |
| OtaConcurrency.MutualExclusion | inbm/dispatcher-agent/dispatcher/ota_thread.py:163-193 | in every reachable state at most one update body runs and none during the startup tasks, the lock is free whenever no thread is inside however it left, and a worker that lost the lock did not enter a body |
| OtaConcurrency.RequestsConserved | inbm/dispatcher-agent/dispatcher/dispatcher_class.py:172-179 | in every reachable state each accepted request is waiting or was taken by exactly one worker, in arrival order |
| OtaConcurrency.BusyOnlyWhenFull | inbm/dispatcher-agent/dispatcher/dispatcher_class.py:480-484 | a request is turned away exactly when another one is waiting |
| WorkloadOrchestration.ProcessMaintenanceModeOk | inbm/dispatcher-agent/dispatcher/workload_orchestration.py:107-145 | the loop ends as the specification function on the answers does |
| WorkloadOrchestration.SwitchToMaintenanceMode | inbm/dispatcher-agent/dispatcher/workload_orchestration.py:81-105 | the same for the whole switch with its exception handler |
| WorkloadOrchestration.AtMostThreeFailures | inbm/dispatcher-agent/dispatcher/workload_orchestration.py:124-138 | for every stream of answers at most three failed polls are made, and exactly the failed ones are counted |
| WorkloadOrchestration.PollEnds | inbm/dispatcher-agent/dispatcher/workload_orchestration.py:107-145 | with the switch required, the loop returns if and only if an empty list is reported with fewer than three failures before; required or not, it raises a KeyError if and only if an answer without a list is read in time; it stops at the first such answer |
| WorkloadOrchestration.ProceedsWhenEmpty | inbm/dispatcher-agent/dispatcher/workload_orchestration.py:81-145 | with the switch required, the update proceeds if and only if the switch was accepted and an empty list was then reported in time |
| WorkloadOrchestration.KeyErrorEscapes | inbm/dispatcher-agent/dispatcher/workload_orchestration.py:81-145 | the switch raises a KeyError, required or not, if and only if it was accepted and an answer without a list of workloads was then read in time |
| WorkloadOrchestration.NeverStopsUpdate | inbm/dispatcher-agent/dispatcher/workload_orchestration.py:98-105 | where the switch is not required, the update goes ahead if and only if the polling ends and no such answer is read: no DispatcherException escapes |
| WorkloadOrchestration.FailedPollLetsProceed | inbm/dispatcher-agent/dispatcher/workload_orchestration.py:124-145 | a failed poll that carries an empty list ends the wait like a successful one |

## Left out

- ConfigStore.RunSound: the orchestrator attribute is not among the operations, because a rejected attribute update need not keep the store valid; `UpdateNameRejected` and `UpdateNameAccepted` say exactly when it does.
- ConfigCommas.RemoveOfComma: like `AppendFails` for such values, stated for trees in which no tag begins with a brace, as in every file without namespaces.
- ConfigStore.UpdateTextSound: asks that accepted trees read back as themselves, which a carriage return in a text breaks; `UpdateTextReadsBack` has the exact condition without it.
- ConfigAgent.AnsweredOk: stated for section names without a colon, as in the configuration file.
- ConfigAgent.Broker.ExecuteRequest: a request without an id or with fields that are not strings, the retained flag of notifications, and the difference between an element without text and one with empty text are not modelled.
- ImageManager.Pull: takes a reference with its tag, as the other operations pass it; the password prompt for private registries and a second caller at the same time are not modelled.
- ImageManager.FindContainer: the sort by creation time is any choice of a maximum, since Go's sort is not stable; the ancestor filter of the list call is left to the image-name test behind it.
- ImageManager.Snapshot: of the contents of an image only the container they were committed from, or that they were pulled, is modelled.
- Docker.LatestIsHighest: dangling images and tags on one image in several registries are not modelled; image removal with `PruneChildren` takes one tag.
- TelemetryTiming.TelemetryTimer.SleepAndCount: time is real numbers, not floating point.
- TelemetryPolling.Poller.CountDown: the configuration thread runs between the parts of a pass, not between the two statements of one countdown.
- OtaRuns.Run: assumes that the SOTA and AOTA bodies, whose code is not part of this model, set one of the known statuses, have saved the log if they set PENDING, and ran if they report success, and that no manifest, type or message that occurs in the run contains the word PENDING. It does not assume that software leaves a state file: where the source does not (Windows, and Debian after a restart command), that is one of the ways to lose a verdict.
- OtaRuns.VerdictReachesLog: for requests that return; writes of the log are taken to complete in `OtaLifecycle` and `OtaRuns`, though a failed one is swallowed and leaves the old or an empty file (`SaveLog` and `UpdateLog` have both).
- OtaLifecycle.Device.FotaInstall: loss of power inside the installation, and the deletion of downloaded packages after a failure, are not modelled.
- OtaLifecycle.Device.DoInstall: what the calls of the workload orchestrator do is not modelled, only whether they raise.
- OtaLifecycle.Device.Reboot: the speculative Mender commit after an unreadable state file and the workload-orchestration calls at startup are not modelled.
- OtaConcurrency.RequestsConserved: the limit on the number of worker threads is not used, so the result holds for any number; shutting the dispatcher down is not modelled.
- WorkloadOrchestration.ProcessMaintenanceModeOk: the fixed sleeps between polls and the path of an `orchestrator_response` that could not be read are not modelled.
- Publisher.SanitizeValues: the text of the error message is not modelled.
- XPath expressions other than tags and stars separated by slashes, stores that are not backed by a file, and failing writes of the configuration file are not modelled.
- The manifests of FOTA, SOTA, configuration and query requests, which are built in the same way, are not modelled.
- The Resource Monitor thread of the poller, container health and Docker statistics are not modelled.
- Shutdown, restart and decommission requests that do not come as manifests are not modelled.
- The switch back to online mode of the workload orchestrator is not modelled.
- Downloads, tar files, MQTT, REST, the shell, DMI and device-tree reading, and the command lines of tools are not modelled.
