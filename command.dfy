/**
 * The placeholder substitution of `executeCommand`.  Running the result
 * through `sh -c` is not modelled; the function returns the command line the
 * shell would be given, or `None` when nothing is executed.
 */
module Command {
  import opened Wrappers
  import opened Text

  const DevicePlaceholder: string := "{device}"
  const StatePlaceholder: string := "{state}"

  /** `{device}` is replaced first, then `{state}` in the result.  A
      template without placeholders comes out as written. */
  function Substitute(template: string, deviceName: string, state: string): (r: string)
    ensures !Contains(template, DevicePlaceholder) && !Contains(template, StatePlaceholder)
      ==> r == template
  {
    var r := ReplaceAll(ReplaceAll(template, DevicePlaceholder, deviceName), StatePlaceholder, state);
    assert !Contains(template, DevicePlaceholder) && !Contains(template, StatePlaceholder) ==> r == template by {
      if !Contains(template, DevicePlaceholder) && !Contains(template, StatePlaceholder) {
        ReplaceAllWithoutOccurrence(template, DevicePlaceholder, deviceName);
        ReplaceAllWithoutOccurrence(template, StatePlaceholder, state);
      }
    }
    r
  }

  /**
   * `executeCommand`: an empty template runs nothing; otherwise the command
   * line with both placeholders substituted.  A template without
   * placeholders is run as written.
   */
  function ExecuteCommand(command: string, deviceName: string, state: string): (r: Option<string>)
    ensures r.None? <==> command == ""
    ensures r.Some? ==> r.value == Substitute(command, deviceName, state)
    ensures r.Some? && !Contains(command, DevicePlaceholder) && !Contains(command, StatePlaceholder)
      ==> r.value == command
  {
    if command == "" then None else Some(Substitute(command, deviceName, state))
  }

  /** Both steps cut the template at their placeholder and glue the pieces
      back with the replacement text. */
  lemma SubstituteIsJoinOfSplits(template: string, deviceName: string, state: string)
    ensures Substitute(template, deviceName, state)
         == Join(Split(Join(Split(template, DevicePlaceholder), deviceName), StatePlaceholder), state)
  {
    ReplaceAllIsJoinOfSplit(template, DevicePlaceholder, deviceName);
    ReplaceAllIsJoinOfSplit(ReplaceAll(template, DevicePlaceholder, deviceName), StatePlaceholder, state);
  }

  /** `{state}` followed by brace-free text holds no `{device}`. */
  lemma DevicePassKeepsState(c: string, deviceName: string)
    requires FreeOf(c, '{')
    ensures ReplaceAll(StatePlaceholder + c, DevicePlaceholder, deviceName) == StatePlaceholder + c
  {
    var sc := StatePlaceholder + c;
    assert !OccursAt(sc, DevicePlaceholder, 0) by { assert sc[1] == 's'; }
    ReplaceAllCopiesFirst(sc, DevicePlaceholder, deviceName);
    assert FreeOf(sc[1..], '{') by { assert sc[1..] == "state}" + c; }
    ReplaceAllOfFree(sc[1..], DevicePlaceholder, deviceName);
    assert [sc[0]] + sc[1..] == sc;
  }

  /** The `{device}` pass over `b` followed by `{state}` and brace-free text. */
  lemma DevicePassTail(b: string, c: string, deviceName: string)
    requires FreeOf(b, '{') && FreeOf(c, '{')
    ensures ReplaceAll(DevicePlaceholder + (b + (StatePlaceholder + c)), DevicePlaceholder, deviceName)
         == deviceName + (b + (StatePlaceholder + c))
  {
    var sc := StatePlaceholder + c;
    DevicePassKeepsState(c, deviceName);
    ReplaceAllSkipsFree(b, sc, DevicePlaceholder, deviceName);
    ReplaceAllAtFront(b + sc, DevicePlaceholder, deviceName);
  }

  /** Proof step only: two ways of bracketing a concatenation of five
      strings, kept apart so that the lemmas using it stay cheap to check. */
  lemma Regroup(a: string, p: string, b: string, q: string, c: string)
    ensures a + p + b + q + c == a + (p + (b + (q + c)))
    ensures a + (p + (b + (q + c))) == (a + p + b) + (q + c)
  {
  }

  /** The `{device}` pass replaces the one `{device}` and nothing else. */
  lemma DevicePass(a: string, b: string, c: string, deviceName: string)
    requires FreeOf(a, '{') && FreeOf(b, '{') && FreeOf(c, '{')
    ensures ReplaceAll(a + DevicePlaceholder + b + StatePlaceholder + c, DevicePlaceholder, deviceName)
         == (a + deviceName + b) + (StatePlaceholder + c)
  {
    var rest := b + (StatePlaceholder + c);
    DevicePassTail(b, c, deviceName);
    ReplaceAllSkipsFree(a, DevicePlaceholder + rest, DevicePlaceholder, deviceName);
    Regroup(a, DevicePlaceholder, b, StatePlaceholder, c);
    Regroup(a, deviceName, b, StatePlaceholder, c);
  }

  /** The `{state}` pass replaces the one `{state}` and nothing else. */
  lemma StatePass(mid: string, c: string, state: string)
    requires FreeOf(mid, '{') && FreeOf(c, '{')
    ensures ReplaceAll(mid + (StatePlaceholder + c), StatePlaceholder, state) == mid + state + c
  {
    ReplaceAllOfFree(c, StatePlaceholder, state);
    ReplaceAllAtFront(c, StatePlaceholder, state);
    ReplaceAllSkipsFree(mid, StatePlaceholder + c, StatePlaceholder, state);
  }

  /**
   * With no stray `{` in the surrounding text or the device name, each
   * placeholder written once is replaced by its value and nothing else
   * changes.
   */
  lemma SubstituteBothOnce(a: string, b: string, c: string, deviceName: string, state: string)
    requires FreeOf(a, '{') && FreeOf(b, '{') && FreeOf(c, '{') && FreeOf(deviceName, '{')
    ensures Substitute(a + DevicePlaceholder + b + StatePlaceholder + c, deviceName, state)
         == a + deviceName + b + state + c
  {
    DevicePass(a, b, c, deviceName);
    var mid := a + deviceName + b;
    assert FreeOf(mid, '{');
    StatePass(mid, c, state);
  }

  /** The usual case: `echo {device} is {state}` names the device and the
      state, for instance `echo Cam is ON`. */
  lemma SubstituteExample(deviceName: string, state: string)
    requires FreeOf(deviceName, '{')
    ensures Substitute("echo {device} is {state}", deviceName, state) == "echo " + deviceName + " is " + state
  {
    ExampleTemplate();
    SubstituteBothOnce("echo ", " is ", "", deviceName, state);
    AppendEmpty("echo " + deviceName + " is " + state);
  }

  /** Proof step only: the example template is its text with the two
      placeholders in place. */
  lemma ExampleTemplate()
    ensures "echo {device} is {state}" == "echo " + DevicePlaceholder + " is " + StatePlaceholder + ""
  {
  }

  /** Proof step only: appending nothing changes nothing. */
  lemma AppendEmpty(s: string)
    ensures s + "" == s
  {
  }

  /** Because `{state}` is replaced after `{device}`, a device name that is
      `{state}` is rewritten to the state too. */
  lemma DeviceNameIsSubstitutedAgain(a: string, c: string, state: string)
    requires FreeOf(a, '{') && FreeOf(c, '{')
    ensures Substitute(a + DevicePlaceholder + c, StatePlaceholder, state) == a + state + c
  {
    ReplaceAllOfFree(c, DevicePlaceholder, StatePlaceholder);
    ReplaceAllAtFront(c, DevicePlaceholder, StatePlaceholder);
    ReplaceAllSkipsFree(a, DevicePlaceholder + c, DevicePlaceholder, StatePlaceholder);
    assert a + DevicePlaceholder + c == a + (DevicePlaceholder + c);
    StatePass(a, c, state);
  }

  /** Proof step only: `{state}` is a brace followed by `state}`. */
  lemma StatePlaceholderThen(c: string)
    ensures "{" + ("state}" + c) == StatePlaceholder + c
  {
    assert StatePlaceholder == "{" + "state}";
    assert "{" + ("state}" + c) == ("{" + "state}") + c;
  }

  /** The text after the `{` of a `{state}` holds no `{` of its own. */
  lemma StateTailFree(c: string)
    requires FreeOf(c, '{')
    ensures FreeOf("state}" + c, '{')
  {
    var tail := "state}" + c;
    forall k | 0 <= k < |tail| ensures tail[k] != '{' {
      if k >= 6 { assert tail[k] == c[k - 6]; }
    }
  }

  /** Deleting a leading `{device}` from `{device}state}` leaves `state}`. */
  lemma DeletingLeadingDevice(c: string)
    requires FreeOf(c, '{')
    ensures ReplaceAll(DevicePlaceholder + ("state}" + c), DevicePlaceholder, "") == "state}" + c
  {
    var tail := "state}" + c;
    ReplaceAllAtFront(tail, DevicePlaceholder, "");
    StateTailFree(c);
    ReplaceAllOfFree(tail, DevicePlaceholder, "");
  }

  /** A character in front of text that starts a pattern cannot itself start
      an occurrence when the pattern does not repeat its first character. */
  lemma ReplaceAllKeepsLeadChar(ch: char, x: string, pat: string, rep: string)
    requires |pat| > 1 && pat[0] != pat[1] && |x| > 0 && x[0] == pat[0]
    ensures ReplaceAll([ch] + x, pat, rep) == [ch] + ReplaceAll(x, pat, rep)
  {
    var s := [ch] + x;
    assert s[1] == x[0];
    ReplaceAllCopiesFirst(s, pat, rep);
    assert s[1..] == x;
  }

  /** Deleting the `{device}` inside `{{device}state}` leaves `{state}`. */
  lemma DeletingDeviceFormsState(c: string)
    requires FreeOf(c, '{')
    ensures ReplaceAll("{" + (DevicePlaceholder + ("state}" + c)), DevicePlaceholder, "") == StatePlaceholder + c
  {
    var x := DevicePlaceholder + ("state}" + c);
    assert x[0] == DevicePlaceholder[0];
    ReplaceAllKeepsLeadChar('{', x, DevicePlaceholder, "");
    DeletingLeadingDevice(c);
    StatePlaceholderThen(c);
  }

  /** Removing `{device}` (an empty device name) from `{{device}state}`
      brings the two halves of a `{state}` together, which the second pass
      then replaces. */
  lemma PlaceholderReintroduced(a: string, c: string, state: string)
    requires FreeOf(a, '{') && FreeOf(c, '{')
    ensures Substitute(a + ("{" + (DevicePlaceholder + ("state}" + c))), "", state) == a + state + c
  {
    var t := "{" + (DevicePlaceholder + ("state}" + c));
    DeletingDeviceFormsState(c);
    ReplaceAllSkipsFree(a, t, DevicePlaceholder, "");
    StatePass(a, c, state);
  }
}
