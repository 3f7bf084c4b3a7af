# studio-cam-detector, modelled in Dafny

`studio-cam-detector` is a macOS command-line tool. It asks CoreMediaIO
which capture devices exist and whether each one is "running somewhere"
(in use by some process). From that answer it picks one camera: by default
the Apple Studio Display camera, or the first device whose name contains a
case-insensitive substring given with `--name` or `--camera`. It then
reports whether that camera is ON or OFF. With `--list` it prints every
device instead (only the video devices with `--video-only`). With `--watch` it polls forever and reports only changes of
state. On each change it can run a shell command in which `{device}` and
`{state}` are substituted.

This project models the logic around the CoreMediaIO binding:

- `wrappers.dfy` holds `Option`. It stands for Go's `(value, ok)` results
  and for the nil-able `*bool` of the watch loop.
- `text.dfy` models Go's `strings.ToLower` (ASCII only), `strings.Contains`
  and `strings.ReplaceAll`. `Split` and `Join` are an independent
  definition of replacing: cut at every occurrence, then glue the pieces
  back together with the replacement text.
- `devices.dfy` holds the `Device` record, the two selectors
  `findDeviceByName` and `findStudioDisplayCamera`, and the
  `--name`/`--camera` alias.
- `listing.dfy` models `printDevices`. The output is the returned sequence
  of lines. The filtering loop is a method proved against the filter
  function. `ParseLine` reads a line back.
- `command.dfy` models the placeholder substitution of `executeCommand`.
- `watch.dfy` models the watch loop. `ChangeDetector` is a class that owns
  `last`. `Step` is one loop iteration and `Watch` runs the loop over a
  finite run of polls. `Emissions` and `Final` are the same run written as
  folds. `Changes` is a reference definition of edge triggering.

Each change of state is reported once, so polls that see the camera off,
off, on, on, off print three reports (`OffOffOnOnOff`). The command for the
start-up state runs once before the loop (studio-cam-detector.go:277-282),
without printing anything. `last` is still unset on the first iteration, so
the first poll that finds the camera always reports and runs a command
(`FirstObservationReported`). Failed polls and polls that miss the camera
before it leave `last` unset. If that first sighting shows the start-up name
and state, the command it runs is the start-up command a second time
(`InitialCommandRepeats`). In the
off, off, on, on, off session the commands therefore run four times: once
before the loop and once per report.

## Model

| member | source | states |
|---|---|---|
| `Devices.FindDeviceByName` | studio-cam-detector.go:162-170 | The result is `None` exactly when no device's lower-cased name contains the lower-cased needle. Otherwise it is the device at the lowest matching index. |
| `Devices.FindDeviceByNameIsFirst` | studio-cam-detector.go:162-170 | If index k matches and no earlier index does, the result is `devs[k]`: the enumeration order decides which device is returned. |
| `Devices.FindDeviceByNameIgnoresCase` | studio-cam-detector.go:163-165 | Lower-casing the needle beforehand does not change the answer. |
| `Devices.FindStudioDisplayCamera` | studio-cam-detector.go:152-160 | The result is `None` exactly when no device both has video and has a lower-cased name containing "studio display". Otherwise it is the first such device. |
| `Devices.ResolveCameraName` | studio-cam-detector.go:235-239 | A non-empty `--name` is used. Otherwise the result is `--camera`. |
| `Devices.TargetOf` | studio-cam-detector.go:255-271 | An empty camera name selects the Studio Display default. Any other name is a substring lookup with that name. |
| `Devices.Select` | studio-cam-detector.go:255-271 | The lookup for a target: the Studio Display selector for the default target, the name selector for a name. A found device comes from the enumeration and satisfies the target's test. |
| `Devices.CameraIsAliasOfName` | studio-cam-detector.go:236-239 | `--camera` given alone selects the same device as `--name` with the same value. A non-empty `--name` makes `--camera` irrelevant. |
| `Listing.StateText` | studio-cam-detector.go:194-197 | The state text is "ON" exactly when the device is running and "OFF" exactly when it is not. |
| `Listing.VideoDevices` | studio-cam-detector.go:178-186 | Every device the filter keeps has video. |
| `Listing.VideoDevicesAppend` | studio-cam-detector.go:180-185 | Filtering a concatenation gives the concatenation of the filtered parts, so the original order is kept. |
| `Listing.VideoDevicesCount` | studio-cam-detector.go:180-185 | Each video device is kept as many times as it occurs. No device without video is kept. |
| `Listing.VideoDevicesKeepsAllVideo` | studio-cam-detector.go:178-186 | A list in which every device has video passes the filter unchanged. |
| `Listing.Shown` | studio-cam-detector.go:178-186 | The list that is printed: the enumeration itself without `--video-only`, only video devices with it. |
| `Listing.FilterVideo` | studio-cam-detector.go:179-186 | The loop that appends each video device produces exactly `VideoDevices` of its input. |
| `Listing.PrintDevices` | studio-cam-detector.go:172-204 | An empty enumeration prints only "No CMIO devices found.". An empty filtered list prints only "No video devices found.". Otherwise there is one line per shown device, in order, and each line is `DeviceLine` of that device. |
| `Listing.NoVideoMessageNeedsFilter` | studio-cam-detector.go:178-191 | Without `--video-only`, a non-empty enumeration never prints "No video devices found.". |
| `Listing.DeviceLine` | studio-cam-detector.go:193-202 | Computes the line `- <name>[ [VIDEO]]  [ON|OFF]` for one device. What it encodes is stated by `ParseDeviceLine` and `DeviceLineAmbiguous`. |
| `Listing.ParseDeviceLine` | studio-cam-detector.go:193-202 | A listing line reads back as the device's name, video flag and state. The one exception is an audio-only device whose name ends in " [VIDEO]". |
| `Listing.DeviceLineAmbiguous` | studio-cam-detector.go:198-202 | That exception is real: an audio-only device named "Cam [VIDEO]" prints the same line as a video device named "Cam". |
| `Text.Lower` | studio-cam-detector.go:155-165 | Computes `strings.ToLower` on ASCII: every capital letter becomes its lower-case letter and nothing else changes. `LowerHasNoCapital` and `LowerIdempotent` state what it yields; `FindDeviceByNameIgnoresCase` states what it means for the lookup. |
| `Text.LowerHasNoCapital` | studio-cam-detector.go:155-165 | A lower-cased string holds no ASCII capital letter. |
| `Text.LowerIdempotent` | studio-cam-detector.go:163-165 | Lower-casing twice is the same as lower-casing once. |
| `Text.Contains` | studio-cam-detector.go:155-165 | Computes `strings.Contains`: the needle occurs at some index of the string, so the empty needle occurs in every string. `ReplaceAllWithoutOccurrence` and `SplitPiecesAreFree` use it. |
| `Text.ReplaceAll` | studio-cam-detector.go:212-213 | Computes Go's `strings.ReplaceAll` for a non-empty pattern: scanning from the left, each occurrence not overlapping an earlier one is replaced, and the replacement is not scanned again. Its properties are the `Text` lemma rows below. |
| `Text.ReplaceAllWithoutOccurrence` | studio-cam-detector.go:212-213 | A string that does not contain the pattern is left unchanged. |
| `Text.ReplaceAllIsJoinOfSplit` | studio-cam-detector.go:212-213 | Replacing every occurrence equals splitting at the occurrences and joining the pieces with the replacement. |
| `Text.SplitJoinRoundTrip` | studio-cam-detector.go:212-213 | Joining the pieces of a split with the separator gives back the original string. |
| `Text.SplitPiecesAreFree` | studio-cam-detector.go:212-213 | No piece of a split contains the separator. |
| `Command.Substitute` | studio-cam-detector.go:211-213 | Replaces `{device}` by the device name, then `{state}` by the state in the result. A template with neither placeholder comes out as written. |
| `Command.ExecuteCommand` | studio-cam-detector.go:206-213 | Nothing is executed exactly when the template is empty. Otherwise the command line is `Substitute` of the template, so a template with neither placeholder is executed as written. |
| `Command.SubstituteIsJoinOfSplits` | studio-cam-detector.go:211-213 | The command line comes from two split-and-join passes: `{device}` first, then `{state}` over the result. |
| `Command.SubstituteBothOnce` | studio-cam-detector.go:211-213 | When the surrounding text and the device name contain no `{`, each placeholder written once is replaced by its value and nothing else changes. |
| `Command.SubstituteExample` | studio-cam-detector.go:211-213 | For any device name without a `{` and any state, `echo {device} is {state}` becomes `echo <name> is <state>`, for instance `echo Cam is ON`. |
| `Command.DeviceNameIsSubstitutedAgain` | studio-cam-detector.go:212-213 | The device name is substituted before `{state}` is, so for a device named `{state}` the template `<a>{device}<c>` becomes `<a><state><c>`: the name ends up as the state text. |
| `Command.DeletingDeviceFormsState` | studio-cam-detector.go:212 | With an empty device name, the first pass turns `{{device}state}<c>` into `{state}<c>`. |
| `Command.PlaceholderReintroduced` | studio-cam-detector.go:212-213 | With an empty device name, `<a>{{device}state}<c>` becomes `<a><state><c>`: the first pass forms a `{state}` that the second pass then replaces. |
| `Watch.Lookup` | studio-cam-detector.go:285-304 | The target as one poll finds it: nothing after an enumeration error, otherwise `Select` on the enumerated devices, so a found device belongs to that enumeration. |
| `Watch.EventCommand` | studio-cam-detector.go:308-314 | An ON report runs the on-command with state "ON". An OFF report runs the off-command with state "OFF". |
| `Watch.EventLine` | studio-cam-detector.go:315 | Computes the report line `<name>  [ON|OFF]`. `EventLineParses` states what it encodes. |
| `Watch.EventLineParses` | studio-cam-detector.go:315 | A report line `<name>  [ON|OFF]` reads back as the device name and the reported state. |
| `Watch.ChangeDetector.constructor` | studio-cam-detector.go:275 | `last` starts unset. |
| `Watch.ChangeDetector.Step` | studio-cam-detector.go:285-317 | An enumeration error or a missing device leaves `last` unchanged and reports nothing. A found device is reported exactly when `last` is unset or differs from its running flag. Afterwards `last` holds that flag. |
| `Watch.ChangeDetector.Watch` | studio-cam-detector.go:284-319 | The loop over a finite run reports `Emissions` of the run and ends with `last` equal to `Final` of the run. |
| `Watch.Emissions` | studio-cam-detector.go:284-319 | Computes the reports of a finite run of polls, one loop iteration per poll, as a fold from the left. `ChangeDetector.Watch` is proved to produce it; `EmissionsAreChanges` states what it means. |
| `Watch.Final` | studio-cam-detector.go:284-319 | Computes `last` after a finite run of polls, by the same fold. `ChangeDetector.Watch` is proved to end in it; `FinalIsLatestObservation` states what it means. |
| `Watch.EmissionsAreChanges` | studio-cam-detector.go:306-317 | The reported states are exactly `Changes` of the states seen by the polls that found the device: the first one, then each one that differs from the one before it. |
| `Watch.FinalIsLatestObservation` | studio-cam-detector.go:306-317 | After a run `last` holds the state seen by the latest poll that found the device, and is still unset if no poll found it. |
| `Watch.ChangesAlternate` | studio-cam-detector.go:306-317 | `Changes` keeps the first observation and ends with the latest one, and no two neighbouring entries are equal. |
| `Watch.ConsecutiveReportsDiffer` | studio-cam-detector.go:306-317 | Over any finite run, two consecutive reports always carry different states. |
| `Watch.FirstObservationReported` | studio-cam-detector.go:275-317 | The first poll that finds the device is always reported, with the state it observed. |
| `Watch.EmissionsPrefix` | studio-cam-detector.go:284-319 | The reports of a run are a prefix of the reports of any run that extends it. |
| `Watch.ReportCommands` | studio-cam-detector.go:306-314 | Computes the command of each report, in order. `ReportTemplatesAlternate` states what the sequence is like. |
| `Watch.ReportTemplatesAlternate` | studio-cam-detector.go:306-314 | Two neighbouring reports run different templates: the on-command with "ON" followed by the off-command with "OFF", or the other way round, each with the reported device's name. |
| `Watch.SessionCommands` | studio-cam-detector.go:277-314 | Computes the commands of a watch session: the one for the start-up state, then `ReportCommands` of the reports. `InitialCommandRepeats` and `ReportTemplatesAlternate` state what the sequence is like. |
| `Watch.NothingBeforeFirstSighting` | studio-cam-detector.go:285-304 | Polls that all fail or miss the device report nothing and leave `last` unset. |
| `Watch.InitialCommandRepeats` | studio-cam-detector.go:275-317 | Whatever failed or missing polls come first, if the first poll that finds the device sees its start-up name and state, the command run before the loop is run a second time. |
| `Watch.CameraPollFinds` | studio-cam-detector.go:162-170 | A poll whose only device is a video camera called `name` finds that camera when looking it up by `name`. |
| `Watch.ChangesOffOffOnOnOff` | studio-cam-detector.go:306-317 | Edge triggering keeps off, on, off out of the observations off, off, on, on, off. |
| `Watch.OffOffOnOnOff` | studio-cam-detector.go:284-317 | Five polls that see the camera off, off, on, on, off (or the same with on and off swapped) give exactly three reports, with the states off, on, off. |

## Left out

- The cgo helpers `GetDevices`, `GetDeviceName`, `GetDeviceIsRunningSomewhere` and `HasVideoStreams` are not modelled, and neither is `listDevices`. They are bindings to CoreMediaIO. An enumeration is modelled as a `Poll`: either `EnumerationFailed` or a `Snapshot` of `Device` values.
- Running the command through `sh -c` is not modelled, and neither is the warning printed when it fails. Both are a foreign process call. `ExecuteCommand` returns the command line that would be run.
- Flag parsing, the one-shot output (`<name> is ON|OFF` or the `--quiet` `ON|OFF`), the messages written to standard error and the exit codes 1 and 2 are not modelled. They are I/O plumbing around the modelled decisions.
- `time.Sleep`, the polling interval and the endless loop are not modelled. A watch session is a finite sequence of polls.
- `Text.Lower`: models `strings.ToLower` on ASCII letters only. Go's full Unicode case mapping is not modelled.
- `Text.ReplaceAll`: requires a non-empty pattern. The source only calls it with `{device}` and `{state}`, so Go's behaviour for an empty pattern is not modelled.
- `Devices.FindDeviceByName` and `Devices.FindStudioDisplayCamera` return `None` where Go returns the zero `Device` together with `false`.
- The 32-bit device `ID` is a `nat`. No modelled logic reads it.
