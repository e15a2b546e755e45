/** What the "apply" button issues (`succesButton_Click` and
    `ExecuteWingetCommand`, profiTools/wind/WinWinget.xaml.cs, lines
    116-152), as values: the winget launches, in order, and the argument
    string of each. */
module Dispatch {
  import opened Records

  datatype Option<T> = None | Some(value: T)

  /** The two management commands the window issues. */
  const Uninstall: string := "uninstall"
  const Upgrade: string := "upgrade"

  /** What ends every argument string: the closing quote and the flag. */
  const Silent: string := "\" --silent"

  /** One launch of winget: the command and the program it acts on. */
  datatype Launch = Launch(command: string, programName: string)

  /** The arguments winget is started with: `{command} "{programName}" --silent`.
      They begin with the command, then a space and the name in double
      quotes, then ` --silent`. */
  function Arguments(command: string, programName: string): (args: string)
    ensures |args| == |command| + |programName| + 2 + |Silent|
    ensures args[..|command|] == command
    ensures args[|command|..|command| + 2] == " \""
    ensures args[|command| + 2..|args| - |Silent|] == programName
    ensures args[|args| - |Silent|..] == Silent
  {
    command + " \"" + programName + Silent
  }

  /** The index of the first space of `s`, or `|s|` when there is none. */
  function FirstSpace(s: string): (k: nat)
    ensures k <= |s|
    ensures forall j :: 0 <= j < k ==> s[j] != ' '
    ensures k < |s| ==> s[k] == ' '
  {
    if s == [] || s[0] == ' ' then 0 else 1 + FirstSpace(s[1..])
  }

  /** Reads an argument string back: the command is what comes before the
      first space, the name what lies between the opening quote after it
      and the closing `" --silent`. */
  function ParseArguments(args: string): Option<Launch>
  {
    var k := FirstSpace(args);
    if k + 2 + |Silent| <= |args| && args[k..k + 2] == " \"" && args[|args| - |Silent|..] == Silent
    then Some(Launch(args[..k], args[k + 2..|args| - |Silent|]))
    else None
  }

  /** For a command without a space (both commands the window issues), the
      argument string determines the command and the name: `ParseArguments`
      reads both back. */
  lemma ArgumentsRoundTrip(command: string, programName: string)
    requires forall j :: 0 <= j < |command| ==> command[j] != ' '
    ensures ParseArguments(Arguments(command, programName)) == Some(Launch(command, programName))
  {
    var args := Arguments(command, programName);
    FirstSpaceAt(args, |command|);
  }

  lemma {:induction false} FirstSpaceAt(s: string, k: nat)
    requires k < |s| && s[k] == ' '
    requires forall j :: 0 <= j < k ==> s[j] != ' '
    ensures FirstSpace(s) == k
  {
    if k > 0 {
      FirstSpaceAt(s[1..], k - 1);
    }
  }

  /** The launches one record asks for: `uninstall` if it is marked for
      removal, then, checked separately, `upgrade` if it is marked for
      upgrade. */
  function RecordCommands(r: ProgramRecord): (ls: seq<Launch>)
    ensures |ls| == (if r.remove then 1 else 0) + (if r.update then 1 else 0)
    ensures forall k :: 0 <= k < |ls| ==> ls[k].programName == r.name
    ensures r.remove ==> ls[0] == Launch(Uninstall, r.name)
    ensures r.update ==> ls[|ls| - 1] == Launch(Upgrade, r.name)
  {
    (if r.remove then [Launch(Uninstall, r.name)] else [])
      + (if r.update then [Launch(Upgrade, r.name)] else [])
  }

  /** The launches the button issues for the records, in record order. */
  function Commands(rs: seq<ProgramRecord>): seq<Launch>
  {
    if rs == [] then [] else RecordCommands(rs[0]) + Commands(rs[1..])
  }

  function CountRemove(rs: seq<ProgramRecord>): nat
  {
    if rs == [] then 0 else (if rs[0].remove then 1 else 0) + CountRemove(rs[1..])
  }

  function CountUpdate(rs: seq<ProgramRecord>): nat
  {
    if rs == [] then 0 else (if rs[0].update then 1 else 0) + CountUpdate(rs[1..])
  }

  function CountCommand(ls: seq<Launch>, command: string): nat
  {
    if ls == [] then 0
    else (if ls[0].command == command then 1 else 0) + CountCommand(ls[1..], command)
  }

  /** The launches for two lists of records one after the other are those
      of the first list, then those of the second; this is the step of the
      button's loop. */
  lemma {:induction false} CommandsAppend(a: seq<ProgramRecord>, b: seq<ProgramRecord>)
    ensures Commands(a + b) == Commands(a) + Commands(b)
  {
    if a == [] {
      assert a + b == b;
    } else {
      assert (a + b)[1..] == a[1..] + b;
      CommandsAppend(a[1..], b);
    }
  }

  /** One more record at the end adds its launches at the end. */
  lemma CommandsSnoc(rs: seq<ProgramRecord>, r: ProgramRecord)
    ensures Commands(rs + [r]) == Commands(rs) + RecordCommands(r)
  {
    CommandsAppend(rs, [r]);
    assert [r][1..] == [];
  }

  /** The button loop's invariant, carried over one record. */
  lemma CommandsStep(rs: seq<ProgramRecord>, i: nat, start: seq<Launch>,
                     current: seq<Launch>, next: seq<Launch>)
    requires i < |rs|
    requires current == start + Commands(rs[..i])
    requires next == current + RecordCommands(rs[i])
    ensures next == start + Commands(rs[..i + 1])
  {
    CommandsSnoc(rs[..i], rs[i]);
    assert rs[..i + 1] == rs[..i] + [rs[i]];
  }

  /** Record order is launch order: the launches of record `i` come after
      those of every earlier record and before those of every later one. */
  lemma {:induction false} CommandsInOrder(rs: seq<ProgramRecord>, i: nat)
    requires i < |rs|
    ensures Commands(rs) == Commands(rs[..i]) + RecordCommands(rs[i]) + Commands(rs[i + 1..])
  {
    var before, after := rs[..i], rs[i + 1..];
    assert rs == before + ([rs[i]] + after);
    CommandsAppend(before, [rs[i]] + after);
    assert ([rs[i]] + after)[1..] == after;
    assert Commands([rs[i]] + after) == RecordCommands(rs[i]) + Commands(after);
  }

  /** Every record marked for removal is uninstalled, and every record
      marked for upgrade is upgraded, whatever its other flag says. */
  lemma CommandsComplete(rs: seq<ProgramRecord>, i: nat)
    requires i < |rs|
    ensures rs[i].remove ==> Launch(Uninstall, rs[i].name) in Commands(rs)
    ensures rs[i].update ==> Launch(Upgrade, rs[i].name) in Commands(rs)
  {
    CommandsInOrder(rs, i);
  }

  /** `l` is an uninstall of `r` marked for removal or an upgrade of `r`
      marked for upgrade. */
  predicate IssuedFor(l: Launch, r: ProgramRecord)
  {
    || (l == Launch(Uninstall, r.name) && r.remove)
    || (l == Launch(Upgrade, r.name) && r.update)
  }

  /** Nothing else is launched: each launch is an uninstall of a record
      marked for removal or an upgrade of a record marked for upgrade. */
  lemma {:induction false} CommandsSound(rs: seq<ProgramRecord>, k: nat)
    requires k < |Commands(rs)|
    ensures exists i :: 0 <= i < |rs| && IssuedFor(Commands(rs)[k], rs[i])
  {
    var head := RecordCommands(rs[0]);
    if k < |head| {
      assert Commands(rs)[k] == head[k];
    } else {
      assert Commands(rs)[k] == Commands(rs[1..])[k - |head|];
      CommandsSound(rs[1..], k - |head|);
      var i :| 0 <= i < |rs[1..]| && IssuedFor(Commands(rs[1..])[k - |head|], rs[1..][i]);
      assert rs[1..][i] == rs[i + 1];
    }
  }

  /** One uninstall per record marked for removal and one upgrade per
      record marked for upgrade, so as many launches as flags set. */
  lemma {:induction false} CommandsCount(rs: seq<ProgramRecord>)
    ensures CountCommand(Commands(rs), Uninstall) == CountRemove(rs)
    ensures CountCommand(Commands(rs), Upgrade) == CountUpdate(rs)
    ensures |Commands(rs)| == CountRemove(rs) + CountUpdate(rs)
  {
    if rs != [] {
      CommandsCount(rs[1..]);
      var head := RecordCommands(rs[0]);
      CountCommandAppend(head, Commands(rs[1..]), Uninstall);
      CountCommandAppend(head, Commands(rs[1..]), Upgrade);
    }
  }

  lemma {:induction false} CountCommandAppend(a: seq<Launch>, b: seq<Launch>, command: string)
    ensures CountCommand(a + b, command) == CountCommand(a, command) + CountCommand(b, command)
  {
    if a == [] {
      assert a + b == b;
    } else {
      assert (a + b)[1..] == a[1..] + b;
      CountCommandAppend(a[1..], b, command);
    }
  }

  /** A record marked for removal followed by one marked for upgrade: one
      uninstall of the first, then one upgrade of the second. */
  lemma RemoveThenUpdate(a: ProgramRecord, b: ProgramRecord)
    requires a.remove && !a.update && !b.remove && b.update
    ensures Commands([a, b]) == [Launch(Uninstall, a.name), Launch(Upgrade, b.name)]
  {
    assert [a, b][1..] == [b] && [b][1..] == [];
    assert Commands([b]) == [Launch(Upgrade, b.name)];
  }

  /** Every argument string the button passes to winget reads back as the
      launch it was made from. */
  lemma CommandsArgumentsRoundTrip(rs: seq<ProgramRecord>, k: nat)
    requires k < |Commands(rs)|
    ensures var l := Commands(rs)[k]; ParseArguments(Arguments(l.command, l.programName)) == Some(l)
  {
    CommandsSound(rs, k);
    var l := Commands(rs)[k];
    assert l.command == Uninstall || l.command == Upgrade;
    ArgumentsRoundTrip(l.command, l.programName);
  }
}
