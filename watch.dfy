/**
 * The `--watch` loop: each poll enumerates the devices, looks the target up
 * again, and reports the target's state only when it differs from the last
 * state reported (edge-triggered).  The sleep between polls and the endless
 * loop are not modelled: a run is a finite sequence of polls.
 */
module Watch {
  import opened Wrappers
  import opened Devices
  import opened Listing
  import opened Command
  import opened Text

  /** The outcome of one enumeration: an error, or the devices found. */
  datatype Poll = EnumerationFailed | Snapshot(devs: seq<Device>)

  /** A reported state change of the device called `deviceName`. */
  datatype Event = Event(deviceName: string, on: bool)

  /** The target as found by one poll; `None` for an enumeration error or a
      device that has disappeared. */
  function Lookup(t: Target, p: Poll): (r: Option<Device>)
    ensures p.EnumerationFailed? ==> r.None?
    ensures p.Snapshot? && r.Some? ==> r.value in p.devs
  {
    match p
    case EnumerationFailed => None
    case Snapshot(devs) => Select(t, devs)
  }

  /** The target as found by each poll of a run. */
  function Sightings(t: Target, polls: seq<Poll>): seq<Option<Device>>
  {
    seq(|polls|, k requires 0 <= k < |polls| => Lookup(t, polls[k]))
  }

  /** What one poll reports, given the last reported state and the target
      as that poll found it. */
  function StepEvent(last: Option<bool>, found: Option<Device>): Option<Event>
  {
    match found
    case None => None
    case Some(d) => if last == Some(d.running) then None else Some(Event(d.name, d.running))
  }

  /** The last reported state after one poll. */
  function StepLast(last: Option<bool>, found: Option<Device>): Option<bool>
  {
    match found
    case None => last
    case Some(d) => Some(d.running)
  }

  function AsSeq<T>(o: Option<T>): seq<T>
  {
    if o.Some? then [o.value] else []
  }

  /** Everything reported over a finite run, starting from `last`, given what
      each poll found. */
  function Emissions(last: Option<bool>, seen: seq<Option<Device>>): seq<Event>
    decreases |seen|
  {
    if seen == [] then []
    else
      var pre := seen[..|seen| - 1];
      Emissions(last, pre) + AsSeq(StepEvent(Final(last, pre), seen[|seen| - 1]))
  }

  /** The last reported state at the end of a finite run. */
  function Final(last: Option<bool>, seen: seq<Option<Device>>): Option<bool>
    decreases |seen|
  {
    if seen == [] then last
    else StepLast(Final(last, seen[..|seen| - 1]), seen[|seen| - 1])
  }

  /** The printed line of a report: `<name>  [ON|OFF]`. */
  function EventLine(e: Event): string
  {
    e.deviceName + "  [" + StateText(e.on) + "]"
  }

  /** A report line gives back the device's name and the reported state. */
  lemma EventLineParses(e: Event)
    ensures StripState(EventLine(e)) == Some((e.deviceName, e.on))
  {
    StripStateOf(e.deviceName, e.on);
  }

  /** The command run for a report: the on-command for ON, the off-command
      for OFF, with the device's name and the state substituted. */
  function EventCommand(e: Event, onCommand: string, offCommand: string): (r: Option<string>)
    ensures e.on ==> r == ExecuteCommand(onCommand, e.deviceName, "ON")
    ensures !e.on ==> r == ExecuteCommand(offCommand, e.deviceName, "OFF")
  {
    ExecuteCommand(if e.on then onCommand else offCommand, e.deviceName, StateText(e.on))
  }

  /** The loop variable `last` of the watch loop, owned by one object. */
  class ChangeDetector {
    const target: Target
    var last: Option<bool>

    /** `last` starts unset. */
    constructor (target: Target)
      ensures this.target == target && last == None
    {
      this.target := target;
      last := None;
    }

    /**
     * One iteration of the watch loop.  An enumeration error or a missing
     * device changes nothing and reports nothing; a found device is
     * reported exactly when `last` is unset or differs from its running
     * flag, and `last` then holds that flag.
     */
    method Step(poll: Poll) returns (event: Option<Event>)
      modifies this
      ensures Lookup(target, poll).None? ==> last == old(last) && event.None?
      ensures Lookup(target, poll).Some? ==>
        var d := Lookup(target, poll).value;
        last == Some(d.running) &&
        (event.Some? <==> old(last).None? || old(last).value != d.running) &&
        (event.Some? ==> event.value == Event(d.name, d.running))
      ensures last == StepLast(old(last), Lookup(target, poll))
      ensures event == StepEvent(old(last), Lookup(target, poll))
    {
      var found := Lookup(target, poll);
      if found.None? {
        return None;
      }
      var d := found.value;
      var cur := d.running;
      if last.None? || last.value != cur {
        event := Some(Event(d.name, cur));
        last := Some(cur);
      } else {
        event := None;
      }
    }

    /** The watch loop over a finite run of polls. */
    method Watch(polls: seq<Poll>) returns (events: seq<Event>)
      modifies this
      ensures events == Emissions(old(last), Sightings(target, polls))
      ensures last == Final(old(last), Sightings(target, polls))
    {
      events := [];
      var i := 0;
      while i < |polls|
        invariant 0 <= i <= |polls|
        invariant events == Emissions(old(last), Sightings(target, polls[..i]))
        invariant last == Final(old(last), Sightings(target, polls[..i]))
      {
        var seen := Sightings(target, polls[..i + 1]);
        assert seen[..i] == Sightings(target, polls[..i]);
        assert seen[i] == Lookup(target, polls[i]);
        var event := Step(polls[i]);
        events := events + AsSeq(event);
        i := i + 1;
      }
      assert polls[..i] == polls;
    }
  }

  /** The running flags of the target in the polls that found it, in order. */
  function Observed(seen: seq<Option<Device>>): seq<bool>
    decreases |seen|
  {
    if seen == [] then []
    else
      var found := seen[|seen| - 1];
      Observed(seen[..|seen| - 1]) + (if found.Some? then [found.value.running] else [])
  }

  /** Reference definition of edge triggering: an observation is kept when
      it is the first one or differs from the observation just before it. */
  function Changes(xs: seq<bool>): seq<bool>
    decreases |xs|
  {
    if xs == [] then []
    else
      var pre := xs[..|xs| - 1];
      Changes(pre) + (if pre != [] && pre[|pre| - 1] == xs[|xs| - 1] then [] else [xs[|xs| - 1]])
  }

  /** The states of a sequence of reports. */
  function States(events: seq<Event>): (r: seq<bool>)
    ensures |r| == |events| && forall k | 0 <= k < |events| :: r[k] == events[k].on
  {
    seq(|events|, k requires 0 <= k < |events| => events[k].on)
  }

  /** One more observation: kept exactly when it is the first or differs
      from the latest one. */
  lemma ChangesSnoc(o: seq<bool>, r: bool)
    ensures Changes(o + [r]) == Changes(o) + (if o != [] && o[|o| - 1] == r then [] else [r])
  {
    var xs := o + [r];
    assert xs[..|xs| - 1] == o;
    assert xs[|xs| - 1] == r;
  }

  /** At the end of a run `last` holds the latest observation, and is unset
      when nothing was observed. */
  lemma {:induction false} FinalIsLatestObservation(seen: seq<Option<Device>>)
    ensures Final(None, seen)
         == if Observed(seen) == [] then None else Some(Observed(seen)[|Observed(seen)| - 1])
    decreases |seen|
  {
    if seen != [] {
      var pre := seen[..|seen| - 1];
      FinalIsLatestObservation(pre);
      if seen[|seen| - 1].None? {
        assert Observed(seen) == Observed(pre) + [];
      }
    }
  }

  /** One poll that finds nothing reports nothing. */
  lemma EmissionsSnocNone(seen: seq<Option<Device>>)
    requires seen != [] && seen[|seen| - 1].None?
    ensures Emissions(None, seen) == Emissions(None, seen[..|seen| - 1])
    ensures Observed(seen) == Observed(seen[..|seen| - 1])
  {
    var pre := seen[..|seen| - 1];
    assert Emissions(None, seen) == Emissions(None, pre) + [];
    assert Observed(seen) == Observed(pre) + [];
  }

  /** One poll that finds the device reports what its step reports. */
  lemma EmissionsSnocSome(seen: seq<Option<Device>>)
    requires seen != [] && seen[|seen| - 1].Some?
    ensures var pre := seen[..|seen| - 1];
      var d := seen[|seen| - 1].value;
      Emissions(None, seen) == Emissions(None, pre)
        + (if Final(None, pre) == Some(d.running) then [] else [Event(d.name, d.running)])
    ensures Observed(seen) == Observed(seen[..|seen| - 1]) + [seen[|seen| - 1].value.running]
  {
  }

  /** The states of concatenated reports are concatenated. */
  lemma StatesAppend(a: seq<Event>, b: seq<Event>)
    ensures States(a + b) == States(a) + States(b)
  {
  }

  /**
   * The watch loop reports exactly the changes of the observed states: its
   * reports are `Changes` of what the polls that found the device saw.
   */
  lemma {:induction false} EmissionsAreChanges(seen: seq<Option<Device>>)
    ensures States(Emissions(None, seen)) == Changes(Observed(seen))
    decreases |seen|
  {
    if seen != [] {
      var pre := seen[..|seen| - 1];
      var found := seen[|seen| - 1];
      EmissionsAreChanges(pre);
      if found.None? {
        EmissionsSnocNone(seen);
      } else {
        var d := found.value;
        var o := Observed(pre);
        EmissionsSnocSome(seen);
        FinalIsLatestObservation(pre);
        ChangesSnoc(o, d.running);
        StatesAppend(Emissions(None, pre), if Final(None, pre) == Some(d.running) then [] else [Event(d.name, d.running)]);
      }
    }
  }

  /** Properties of the reference definition: the first observation is
      always kept, the last kept one is the latest observation, and no two
      neighbours are equal. */
  lemma {:induction false} ChangesAlternate(xs: seq<bool>)
    ensures xs != [] ==> Changes(xs) != [] && Changes(xs)[0] == xs[0]
    ensures xs != [] ==> Changes(xs)[|Changes(xs)| - 1] == xs[|xs| - 1]
    ensures forall k | 0 <= k < |Changes(xs)| - 1 :: Changes(xs)[k] != Changes(xs)[k + 1]
    decreases |xs|
  {
    if xs != [] {
      var pre := xs[..|xs| - 1];
      ChangesAlternate(pre);
      if pre != [] {
        assert pre[0] == xs[0];
      }
    }
  }

  /** Two consecutive reports always carry different states. */
  lemma ConsecutiveReportsDiffer(seen: seq<Option<Device>>)
    ensures forall k | 0 <= k < |Emissions(None, seen)| - 1 ::
      Emissions(None, seen)[k].on != Emissions(None, seen)[k + 1].on
  {
    EmissionsAreChanges(seen);
    ChangesAlternate(Observed(seen));
  }

  /** The first poll that finds the device is always reported, with the state
      it observed. */
  lemma FirstObservationReported(seen: seq<Option<Device>>)
    requires Observed(seen) != []
    ensures Emissions(None, seen) != []
    ensures Emissions(None, seen)[0].on == Observed(seen)[0]
  {
    EmissionsAreChanges(seen);
    ChangesAlternate(Observed(seen));
  }

  /** A run's reports so far are a prefix of the reports of any longer run. */
  lemma {:induction false} EmissionsPrefix(last: Option<bool>, seen: seq<Option<Device>>, k: nat)
    requires k <= |seen|
    ensures Emissions(last, seen[..k]) <= Emissions(last, seen)
    decreases |seen|
  {
    if k < |seen| {
      var pre := seen[..|seen| - 1];
      assert pre[..k] == seen[..k];
      EmissionsPrefix(last, pre, k);
    } else {
      assert seen[..k] == seen;
    }
  }

  /** The command run for each report, in order. */
  function ReportCommands(events: seq<Event>, onCommand: string, offCommand: string): seq<Option<string>>
  {
    seq(|events|, k requires 0 <= k < |events| => EventCommand(events[k], onCommand, offCommand))
  }

  /** The commands a watch session runs: one for the state found at start-up,
      before the loop, then one per report. */
  function SessionCommands(initial: Device, seen: seq<Option<Device>>,
                           onCommand: string, offCommand: string): seq<Option<string>>
  {
    [EventCommand(Event(initial.name, initial.running), onCommand, offCommand)]
      + ReportCommands(Emissions(None, seen), onCommand, offCommand)
  }

  /** Neighbouring reports run different templates: an ON report's on-command
      is followed by an OFF report's off-command, or the other way round. */
  lemma ReportTemplatesAlternate(seen: seq<Option<Device>>, k: nat, onCommand: string, offCommand: string)
    requires k + 1 < |Emissions(None, seen)|
    ensures var e := Emissions(None, seen);
      var r := ReportCommands(e, onCommand, offCommand);
      || (r[k] == ExecuteCommand(onCommand, e[k].deviceName, "ON")
          && r[k + 1] == ExecuteCommand(offCommand, e[k + 1].deviceName, "OFF"))
      || (r[k] == ExecuteCommand(offCommand, e[k].deviceName, "OFF")
          && r[k + 1] == ExecuteCommand(onCommand, e[k + 1].deviceName, "ON"))
  {
    ConsecutiveReportsDiffer(seen);
  }

  /** Polls that all fail or miss the device report nothing and leave `last`
      unset. */
  lemma {:induction false} NothingBeforeFirstSighting(seen: seq<Option<Device>>, j: nat)
    requires j <= |seen|
    requires forall i | 0 <= i < j :: seen[i].None?
    ensures Emissions(None, seen[..j]) == []
    ensures Final(None, seen[..j]) == None
  {
    if j > 0 {
      NothingBeforeFirstSighting(seen, j - 1);
      var p := seen[..j];
      assert p[..j - 1] == seen[..j - 1];
      assert p[j - 1] == seen[j - 1];
    }
  }

  /**
   * `last` is still unset when the loop starts, and stays unset through
   * failed or missing polls.  So when the first poll that finds the device
   * sees the name and state it had at start-up, the command for that state
   * runs a second time.
   */
  lemma InitialCommandRepeats(initial: Device, seen: seq<Option<Device>>, j: nat,
                              onCommand: string, offCommand: string)
    requires j < |seen|
    requires forall i | 0 <= i < j :: seen[i].None?
    requires seen[j].Some?
    requires seen[j].value.name == initial.name && seen[j].value.running == initial.running
    ensures |SessionCommands(initial, seen, onCommand, offCommand)| >= 2
    ensures SessionCommands(initial, seen, onCommand, offCommand)[1]
         == SessionCommands(initial, seen, onCommand, offCommand)[0]
  {
    NothingBeforeFirstSighting(seen, j);
    var p := seen[..j + 1];
    assert p[..j] == seen[..j];
    assert p[j] == seen[j];
    var ev := Event(initial.name, initial.running);
    assert Emissions(None, p) == [ev];
    EmissionsPrefix(None, seen, j + 1);
    var e := Emissions(None, seen);
    assert e[0] == ev;
    assert ReportCommands(e, onCommand, offCommand)[0] == EventCommand(ev, onCommand, offCommand);
  }

  /** A poll in which the camera `name` is the only device. */
  function CameraPoll(name: string, running: bool): Poll
  {
    Snapshot([Device(1, name, running, true)])
  }

  /** Looking a camera up by its own name finds it. */
  lemma CameraPollFinds(name: string, running: bool)
    ensures Lookup(ByName(name), CameraPoll(name, running)) == Some(Device(1, name, running, true))
  {
    assert OccursAt(Lower(name), Lower(name), 0);
  }

  /** Off, off, on, on, off as seen by five successful polls. */
  function FiveSightings(name: string, off: bool): seq<Option<Device>>
  {
    [Some(Device(1, name, off, true)), Some(Device(1, name, off, true)),
     Some(Device(1, name, !off, true)), Some(Device(1, name, !off, true)),
     Some(Device(1, name, off, true))]
  }

  /** A poll that finds the device adds its running flag to the observations. */
  lemma ObservedSnoc(pre: seq<Option<Device>>, d: Device)
    ensures Observed(pre + [Some(d)]) == Observed(pre) + [d.running]
  {
    assert (pre + [Some(d)])[..|pre|] == pre;
  }

  /** The five sightings observe off, off, on, on, off. */
  lemma FiveSightingsObserved(name: string, off: bool)
    ensures Observed(FiveSightings(name, off)) == [off, off, !off, !off, off]
  {
    var a := Device(1, name, off, true);
    var b := Device(1, name, !off, true);
    var s1 := [] + [Some(a)];
    var s2 := s1 + [Some(a)];
    var s3 := s2 + [Some(b)];
    var s4 := s3 + [Some(b)];
    var s5 := s4 + [Some(a)];
    assert Observed([]) == [];
    ObservedSnoc([], a);
    ObservedSnoc(s1, a);
    ObservedSnoc(s2, b);
    ObservedSnoc(s3, b);
    ObservedSnoc(s4, a);
    assert s5 == FiveSightings(name, off);
  }

  /** Five polls that see the camera off, off, on, on, off find it each time. */
  lemma FiveCameraPollsSighted(name: string, off: bool, polls: seq<Poll>)
    requires polls == [CameraPoll(name, off), CameraPoll(name, off), CameraPoll(name, !off),
                       CameraPoll(name, !off), CameraPoll(name, off)]
    ensures Sightings(ByName(name), polls) == FiveSightings(name, off)
  {
    var t := ByName(name);
    var seen := Sightings(t, polls);
    var a := Lookup(t, CameraPoll(name, off));
    var b := Lookup(t, CameraPoll(name, !off));
    CameraPollFinds(name, off);
    CameraPollFinds(name, !off);
    assert seen[0] == a && seen[1] == a && seen[2] == b && seen[3] == b && seen[4] == a;
    assert seen == [a, a, b, b, a];
  }

  /** Edge triggering keeps off, on, off out of off, off, on, on, off. */
  lemma ChangesOffOffOnOnOff(off: bool)
    ensures Changes([off, off, !off, !off, off]) == [off, !off, off]
  {
    var o1 := [] + [off];
    var o2 := o1 + [off];
    var o3 := o2 + [!off];
    var o4 := o3 + [!off];
    var o5 := o4 + [off];
    assert Changes([]) == [];
    ChangesSnoc([], off);
    ChangesSnoc(o1, off);
    ChangesSnoc(o2, !off);
    ChangesSnoc(o3, !off);
    ChangesSnoc(o4, off);
    assert o5 == [off, off, !off, !off, off];
  }

  /** Off, off, on, on, off (or the same with on and off swapped): exactly
      three reports, with the states off, on, off. */
  lemma OffOffOnOnOff(name: string, off: bool)
    ensures States(Emissions(None, Sightings(ByName(name),
      [CameraPoll(name, off), CameraPoll(name, off), CameraPoll(name, !off),
       CameraPoll(name, !off), CameraPoll(name, off)])))
      == [off, !off, off]
  {
    var polls := [CameraPoll(name, off), CameraPoll(name, off), CameraPoll(name, !off),
                  CameraPoll(name, !off), CameraPoll(name, off)];
    var seen := Sightings(ByName(name), polls);
    FiveCameraPollsSighted(name, off, polls);
    FiveSightingsObserved(name, off);
    EmissionsAreChanges(seen);
    ChangesOffOffOnOnOff(off);
  }
}
