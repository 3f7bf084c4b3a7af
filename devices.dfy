/**
 * The `Device` record and the two selectors that pick the watched camera
 * out of one enumeration, plus the `--name` / `--camera` alias.
 */
module Devices {
  import opened Wrappers
  import opened Text

  /** One entry of a device enumeration: the CoreMediaIO object id, its
      name, whether some process is using it, whether it has video input. */
  datatype Device = Device(id: nat, name: string, running: bool, hasVideo: bool)

  /** The marker the default selector looks for, already lower-case. */
  const StudioDisplayMarker: string := "studio display"

  /** The name matches `needle` ignoring (ASCII) case. */
  predicate NameMatches(d: Device, needle: string)
  {
    Contains(Lower(d.name), Lower(needle))
  }

  /** The device is a Studio Display camera: video-capable and named so. */
  predicate IsStudioDisplayCamera(d: Device)
  {
    d.hasVideo && Contains(Lower(d.name), StudioDisplayMarker)
  }

  /**
   * `findDeviceByName`: the first device, in enumeration order, whose
   * lower-cased name contains the lower-cased needle; `None` when there is
   * none (Go returns the zero `Device` and `false`).
   */
  function FindDeviceByName(devs: seq<Device>, needle: string): (r: Option<Device>)
    ensures r.None? <==> forall i | 0 <= i < |devs| :: !NameMatches(devs[i], needle)
    ensures r.Some? ==> exists i | 0 <= i < |devs| ::
      devs[i] == r.value && NameMatches(devs[i], needle) &&
      forall j | 0 <= j < i :: !NameMatches(devs[j], needle)
  {
    if devs == [] then None
    else if NameMatches(devs[0], needle) then Some(devs[0])
    else
      var r := FindDeviceByName(devs[1..], needle);
      assert forall i | 1 <= i < |devs| :: devs[i] == devs[1..][i - 1];
      r
  }

  /**
   * `findStudioDisplayCamera`: the first device that has video and whose
   * lower-cased name contains "studio display"; `None` when there is none.
   */
  function FindStudioDisplayCamera(devs: seq<Device>): (r: Option<Device>)
    ensures r.None? <==> forall i | 0 <= i < |devs| :: !IsStudioDisplayCamera(devs[i])
    ensures r.Some? ==> exists i | 0 <= i < |devs| ::
      devs[i] == r.value && IsStudioDisplayCamera(devs[i]) &&
      forall j | 0 <= j < i :: !IsStudioDisplayCamera(devs[j])
  {
    if devs == [] then None
    else if IsStudioDisplayCamera(devs[0]) then Some(devs[0])
    else
      var r := FindStudioDisplayCamera(devs[1..]);
      assert forall i | 1 <= i < |devs| :: devs[i] == devs[1..][i - 1];
      r
  }

  /** Whichever device a selector returns is the one at the first matching
      index: the answer is determined by the enumeration order. */
  lemma FindDeviceByNameIsFirst(devs: seq<Device>, needle: string, k: nat)
    requires k < |devs| && NameMatches(devs[k], needle)
    requires forall j | 0 <= j < k :: !NameMatches(devs[j], needle)
    ensures FindDeviceByName(devs, needle) == Some(devs[k])
  {
    var r := FindDeviceByName(devs, needle);
    var i :| 0 <= i < |devs| && devs[i] == r.value && NameMatches(devs[i], needle) &&
      forall j | 0 <= j < i :: !NameMatches(devs[j], needle);
  }

  /** The needle's case does not matter: lower-casing it first gives the
      same answer. */
  lemma FindDeviceByNameIgnoresCase(devs: seq<Device>, needle: string)
    ensures FindDeviceByName(devs, Lower(needle)) == FindDeviceByName(devs, needle)
  {
    LowerIdempotent(needle);
  }

  /** Which device the program targets: the default Studio Display camera
      when no name was given, otherwise a name substring. */
  datatype Target = StudioDisplay | ByName(needle: string)

  /**
   * The alias resolution in `main`: `--name` unless it is empty, in which
   * case `--camera`.
   */
  function ResolveCameraName(name: string, camera: string): (r: string)
    ensures name != "" ==> r == name
    ensures name == "" ==> r == camera
  {
    if name == "" && camera != "" then camera else name
  }

  /** An empty camera name selects the default Studio Display camera. */
  function TargetOf(cameraName: string): (t: Target)
    ensures t.StudioDisplay? <==> cameraName == ""
    ensures t.ByName? ==> t.needle == cameraName
  {
    if cameraName == "" then StudioDisplay else ByName(cameraName)
  }

  /** The lookup `main` and the watch loop do on each enumeration. */
  function Select(t: Target, devs: seq<Device>): (r: Option<Device>)
    ensures r.Some? ==> r.value in devs
    ensures t.StudioDisplay? && r.Some? ==> IsStudioDisplayCamera(r.value)
    ensures t.ByName? && r.Some? ==> NameMatches(r.value, t.needle)
  {
    match t
    case StudioDisplay => FindStudioDisplayCamera(devs)
    case ByName(needle) => FindDeviceByName(devs, needle)
  }

  /** `--camera` is an alias: given alone it selects what `--name` would,
      and a non-empty `--name` makes `--camera` irrelevant. */
  lemma CameraIsAliasOfName(name: string, camera: string, devs: seq<Device>)
    ensures Select(TargetOf(ResolveCameraName("", camera)), devs)
         == Select(TargetOf(ResolveCameraName(camera, "")), devs)
    ensures name != "" ==>
      Select(TargetOf(ResolveCameraName(name, camera)), devs) == FindDeviceByName(devs, name)
  {
  }
}
