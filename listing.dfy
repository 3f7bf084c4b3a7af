/**
 * `--list` mode: which devices `printDevices` shows and the line it prints
 * for each.  Standard output is modelled as the returned sequence of lines.
 */
module Listing {
  import opened Wrappers
  import opened Devices

  const NoDevicesMessage: string := "No CMIO devices found."
  const NoVideoMessage: string := "No video devices found."
  const VideoTag: string := " [VIDEO]"

  /** "ON" for a running device, "OFF" otherwise. */
  function StateText(running: bool): (r: string)
    ensures r == "ON" <==> running
    ensures r == "OFF" <==> !running
  {
    if running then "ON" else "OFF"
  }

  /** The video-capable devices, in enumeration order. */
  function VideoDevices(devs: seq<Device>): (r: seq<Device>)
    ensures forall k | 0 <= k < |r| :: r[k].hasVideo
  {
    if devs == [] then []
    else
      (if devs[0].hasVideo then [devs[0]] else []) + VideoDevices(devs[1..])
  }

  /** Filtering distributes over concatenation: together with the one-device
      case this fixes the order of the result to the enumeration order. */
  lemma {:induction false} VideoDevicesAppend(a: seq<Device>, b: seq<Device>)
    ensures VideoDevices(a + b) == VideoDevices(a) + VideoDevices(b)
  {
    if a == [] {
      assert a + b == b;
    } else {
      assert (a + b)[1..] == a[1..] + b;
      VideoDevicesAppend(a[1..], b);
    }
  }

  /** Each video device is kept as often as it occurs, and no other device is. */
  lemma {:induction false} VideoDevicesCount(devs: seq<Device>, d: Device)
    ensures multiset(VideoDevices(devs))[d] == if d.hasVideo then multiset(devs)[d] else 0
  {
    if devs != [] {
      VideoDevicesCount(devs[1..], d);
      assert devs == [devs[0]] + devs[1..];
    }
  }

  /** When every device has video the filter keeps the whole list. */
  lemma {:induction false} VideoDevicesKeepsAllVideo(devs: seq<Device>)
    requires forall k | 0 <= k < |devs| :: devs[k].hasVideo
    ensures VideoDevices(devs) == devs
  {
    if devs != [] {
      VideoDevicesKeepsAllVideo(devs[1..]);
    }
  }

  /** The list `printDevices` formats: filtered only with `--video-only`. */
  function Shown(devs: seq<Device>, videoOnly: bool): (r: seq<Device>)
    ensures videoOnly ==> forall k | 0 <= k < |r| :: r[k].hasVideo
    ensures !videoOnly ==> r == devs
  {
    if videoOnly then VideoDevices(devs) else devs
  }

  /** The line printed for one device: `- <name>[ [VIDEO]]  [ON|OFF]`. */
  function DeviceLine(d: Device): string
  {
    "- " + d.name + (if d.hasVideo then VideoTag else "") + "  [" + StateText(d.running) + "]"
  }

  /** The filtering loop of `printDevices`: appends each video device. */
  method FilterVideo(devs: seq<Device>) returns (filtered: seq<Device>)
    ensures filtered == VideoDevices(devs)
  {
    filtered := [];
    var i := 0;
    while i < |devs|
      invariant 0 <= i <= |devs|
      invariant filtered == VideoDevices(devs[..i])
    {
      VideoDevicesAppend(devs[..i], [devs[i]]);
      assert devs[..i + 1] == devs[..i] + [devs[i]];
      if devs[i].hasVideo {
        filtered := filtered + [devs[i]];
      }
      i := i + 1;
    }
    assert devs[..i] == devs;
  }

  /**
   * `printDevices`: "No CMIO devices found." for an empty enumeration,
   * "No video devices found." when the filter leaves nothing, otherwise one
   * line per shown device, in order.
   */
  method PrintDevices(devs: seq<Device>, videoOnly: bool) returns (out: seq<string>)
    ensures devs == [] ==> out == [NoDevicesMessage]
    ensures devs != [] && Shown(devs, videoOnly) == [] ==> out == [NoVideoMessage]
    ensures Shown(devs, videoOnly) != [] ==>
      |out| == |Shown(devs, videoOnly)| &&
      forall k | 0 <= k < |out| :: out[k] == DeviceLine(Shown(devs, videoOnly)[k])
  {
    if |devs| == 0 {
      out := [NoDevicesMessage];
      return;
    }

    var filtered := devs;
    if videoOnly {
      filtered := FilterVideo(devs);
    }

    if |filtered| == 0 {
      out := [NoVideoMessage];
      return;
    }

    out := [];
    var j := 0;
    while j < |filtered|
      invariant 0 <= j <= |filtered|
      invariant |out| == j
      invariant forall k | 0 <= k < j :: out[k] == DeviceLine(filtered[k])
    {
      out := out + [DeviceLine(filtered[j])];
      j := j + 1;
    }
  }

  /** Without `--video-only` the "No video devices found." message is never
      printed. */
  lemma NoVideoMessageNeedsFilter(devs: seq<Device>)
    requires devs != []
    ensures Shown(devs, false) != []
  {
  }

  /** `s` ends with `suffix`. */
  predicate EndsWith(s: string, suffix: string)
  {
    |suffix| <= |s| && s[|s| - |suffix|..] == suffix
  }

  /** What a listing line says about a device. */
  datatype Entry = Entry(name: string, hasVideo: bool, running: bool)

  /** Splits the trailing `  [ON]` or `  [OFF]` off a line. */
  function StripState(rest: string): Option<(string, bool)>
  {
    if EndsWith(rest, "  [ON]") then Some((rest[..|rest| - 6], true))
    else if EndsWith(rest, "  [OFF]") then Some((rest[..|rest| - 7], false))
    else None
  }

  /** Splits a trailing ` [VIDEO]` off what precedes the state. */
  function StripVideo(body: string): (string, bool)
  {
    if EndsWith(body, VideoTag) then (body[..|body| - |VideoTag|], true) else (body, false)
  }

  /** Reads a listing line back, from its right end. */
  function ParseLine(line: string): Option<Entry>
  {
    if |line| < 2 || line[..2] != "- " then None
    else match StripState(line[2..])
      case None => None
      case Some((body, running)) =>
        var (name, hasVideo) := StripVideo(body);
        Some(Entry(name, hasVideo, running))
  }

  /** The state suffix of a line is read back as written. */
  lemma StripStateOf(body: string, running: bool)
    ensures StripState(body + "  [" + StateText(running) + "]") == Some((body, running))
  {
    var rest := body + "  [" + StateText(running) + "]";
    if running {
      assert rest == body + "  [ON]";
      assert rest[|rest| - 6..] == "  [ON]";
    } else {
      assert rest == body + "  [OFF]";
      assert rest[|rest| - 7..] == "  [OFF]";
      assert rest[|rest| - 2] == 'F';
    }
  }

  /** The video tag is read back as written, given a name that does not
      already end in it. */
  lemma StripVideoOf(name: string, hasVideo: bool)
    requires !hasVideo ==> !EndsWith(name, VideoTag)
    ensures StripVideo(name + (if hasVideo then VideoTag else "")) == (name, hasVideo)
  {
    if hasVideo {
      var body := name + VideoTag;
      assert body[|body| - |VideoTag|..] == VideoTag;
      assert body[..|body| - |VideoTag|] == name;
    } else {
      assert name + "" == name;
    }
  }

  /** A listing line gives back the device's name, video flag and state,
      unless an audio-only device's name itself ends in " [VIDEO]". */
  lemma ParseDeviceLine(d: Device)
    requires !d.hasVideo ==> !EndsWith(d.name, VideoTag)
    ensures ParseLine(DeviceLine(d)) == Some(Entry(d.name, d.hasVideo, d.running))
  {
    var body := d.name + (if d.hasVideo then VideoTag else "");
    var rest := body + "  [" + StateText(d.running) + "]";
    var line := DeviceLine(d);
    assert line == "- " + rest;
    assert line[..2] == "- " && line[2..] == rest;
    StripStateOf(body, d.running);
    StripVideoOf(d.name, d.hasVideo);
    assert StripState(line[2..]) == Some((body, d.running));
    assert StripVideo(body) == (d.name, d.hasVideo);
  }

  /** The listing cannot tell an audio-only device named "Cam [VIDEO]" from a
      video device named "Cam". */
  lemma DeviceLineAmbiguous(running: bool)
    ensures DeviceLine(Device(0, "Cam [VIDEO]", running, false))
         == DeviceLine(Device(1, "Cam", running, true))
  {
  }
}
