/** The winget window (profiTools/wind/WinWinget.xaml.cs): the list of
    programs it shows, the handler that keeps the two check boxes of a row
    apart, and the button that runs winget for every marked program.
    Starting a winget process is recorded in `launched` instead. */
module Window {
  import opened StringSplit
  import opened Records
  import opened Listing
  import opened Dispatch

  /** One row of the list: a program and the actions chosen for it. */
  class ProgramModel {
    var programName: string
    var remove: bool
    var update: bool

    constructor (name: string)
      ensures programName == name && !remove && !update
    {
      programName := name;
      remove := false;
      update := false;
    }

    function Record(): ProgramRecord
      reads this
    {
      ProgramRecord(programName, remove, update)
    }
  }

  /** The records behind `models`, position by position. */
  function RecordsOf(models: seq<ProgramModel>): (rs: seq<ProgramRecord>)
    reads models
    ensures |rs| == |models|
  {
    if models == [] then [] else [models[0].Record()] + RecordsOf(models[1..])
  }

  /** Position `i` of the records is the record of the model at `i`. */
  lemma {:induction false} RecordsOfAt(models: seq<ProgramModel>, i: nat)
    requires i < |models|
    ensures RecordsOf(models)[i] == models[i].Record()
  {
    if i > 0 {
      RecordsOfAt(models[1..], i - 1);
    }
  }

  lemma {:induction false} RecordsOfAppend(models: seq<ProgramModel>, m: ProgramModel)
    ensures RecordsOf(models + [m]) == RecordsOf(models) + [m.Record()]
  {
    if models == [] {
      assert models + [m] == [m];
    } else {
      assert (models + [m])[1..] == models[1..] + [m];
      RecordsOfAppend(models[1..], m);
    }
  }

  /** No model occurs twice in `models`. */
  ghost predicate Distinct(models: seq<ProgramModel>)
  {
    models == [] || (models[0] !in models[1..] && Distinct(models[1..]))
  }

  lemma {:induction false} DistinctAppend(models: seq<ProgramModel>, m: ProgramModel)
    requires Distinct(models) && m !in models
    ensures Distinct(models + [m])
  {
    if models != [] {
      assert (models + [m])[1..] == models[1..] + [m];
      DistinctAppend(models[1..], m);
    }
  }

  /** In a list without repeats, two positions hold two different rows; so
      a tick, which changes only the positions holding its row, changes at
      most one. */
  lemma {:induction false} DistinctAt(models: seq<ProgramModel>, i: nat, j: nat)
    requires Distinct(models) && i < j < |models|
    ensures models[i] != models[j]
  {
    if i == 0 {
      assert models[j] == models[1..][j - 1];
    } else {
      DistinctAt(models[1..], i - 1, j - 1);
    }
  }

  class WinWinget {
    /** The programs shown, in list order. */
    var programs: seq<ProgramModel>
    /** Every winget launch so far, oldest first. */
    var launched: seq<Launch>

    /** Each row is its own object: no program model is listed twice. */
    ghost predicate Valid()
      reads this`programs
    {
      Distinct(programs)
    }

    /** The list as values. */
    function Records(): seq<ProgramRecord>
      reads this`programs, programs
    {
      RecordsOf(programs)
    }

    /** A new window: an empty list, nothing launched. */
    constructor ()
      ensures Valid() && programs == [] && launched == []
    {
      programs := [];
      launched := [];
    }

    /** Appends one unmarked program per non-blank line of `output` after
        its first (header) line, named by the line's first word. */
    method ParseWingetOutput(output: string)
      requires Valid()
      modifies this`programs
      ensures Valid()
      ensures |programs| == old(|programs|) + |Parsed(output)|
      ensures programs[..old(|programs|)] == old(programs)
      ensures forall i :: old(|programs|) <= i < |programs| ==> fresh(programs[i])
      ensures Records() == old(Records()) + Parsed(output)
    {
      var lines := Split(output, LineBreaks);
      var rows := Rows(lines);
      ghost var before := Records();
      var i := 0;
      while i < |rows|
        invariant 0 <= i <= |rows|
        invariant Valid()
        invariant |programs| >= old(|programs|) && programs[..old(|programs|)] == old(programs)
        invariant forall j :: old(|programs|) <= j < |programs| ==> fresh(programs[j])
        invariant Records() == before + RowsRecords(rows[..i])
      {
        ghost var current, previous := Records(), programs;
        ParseRow(rows[i]);
        forall j | old(|programs|) <= j < |programs|
          ensures fresh(programs[j])
        {
          if j < |previous| {
            assert programs[j] == programs[..|previous|][j] == previous[j];
          }
        }
        RowsRecordsStep(rows, i, before, current, Records());
        i := i + 1;
      }
      assert rows[..i] == rows;
    }

    /** The body of the parsing loop for one row: its first word, if it has
        one, becomes a new program at the end of the list. */
    method ParseRow(row: string)
      requires Valid()
      modifies this`programs
      ensures Valid()
      ensures |programs| == old(|programs|) + |RowRecords(row)| && programs[..old(|programs|)] == old(programs)
      ensures forall j :: old(|programs|) <= j < |programs| ==> fresh(programs[j])
      ensures Records() == old(Records()) + RowRecords(row)
    {
      var parts := Split(row, {' '});
      if |parts| > 0 {
        AddProgram(parts[0]);
      }
    }

    /** `Programs.Add(new ProgramModel { ProgramName = programName })`. */
    method AddProgram(programName: string)
      requires Valid()
      modifies this`programs
      ensures Valid()
      ensures |programs| == old(|programs|) + 1 && programs[..old(|programs|)] == old(programs)
      ensures fresh(programs[old(|programs|)])
      ensures Records() == old(Records()) + [Unmarked(programName)]
    {
      var model := new ProgramModel(programName);
      DistinctAppend(programs, model);
      RecordsOfAppend(programs, model);
      programs := programs + [model];
      assert programs[..old(|programs|)] == old(programs);
    }

    /** The check box with the text `caption` in the row of `model` has
        been ticked: "Удалить" clears the row's upgrade mark, "Обновить"
        clears its removal mark, any other text changes nothing, and no
        other row changes, so at most one position of the list changes.
        Without a row (`model == null`) nothing happens. */
    method ActionCheckBoxChecked(model: ProgramModel?, caption: string)
      requires Valid()
      modifies model
      ensures model != null ==> model.Record() == Checked(old(model.Record()), caption)
      ensures |Records()| == old(|Records()|)
      ensures forall i :: 0 <= i < |programs| ==>
        Records()[i] == if programs[i] == model then Checked(old(Records())[i], caption) else old(Records())[i]
      ensures forall i, j :: 0 <= i < j < |programs| ==>
        Records()[i] == old(Records())[i] || Records()[j] == old(Records())[j]
    {
      if model == null {
        return;
      }
      ghost var before := Records();
      forall i | 0 <= i < |programs|
        ensures before[i] == programs[i].Record()
      {
        RecordsOfAt(programs, i);
      }
      if caption == RemoveLabel {
        model.update := false;
      } else if caption == UpdateLabel {
        model.remove := false;
      }
      forall i | 0 <= i < |programs|
        ensures Records()[i] == programs[i].Record()
      {
        RecordsOfAt(programs, i);
      }
      forall i, j | 0 <= i < j < |programs|
        ensures programs[i] != model || programs[j] != model
      {
        DistinctAt(programs, i, j);
      }
    }

    /** Starts `winget {command} "{programName}" --silent`. */
    method ExecuteWingetCommand(command: string, programName: string)
      modifies this`launched
      ensures launched == old(launched) + [Launch(command, programName)]
    {
      launched := launched + [Launch(command, programName)];
    }

    /** Runs winget for every row in list order: `uninstall` if the row is
        marked for removal, then `upgrade` if it is marked for upgrade.
        The list is left as it was. */
    method SuccesButtonClick()
      modifies this`launched
      ensures launched == old(launched) + Commands(old(Records()))
      ensures programs == old(programs) && Records() == old(Records())
    {
      ghost var records := Records();
      var i := 0;
      while i < |programs|
        invariant 0 <= i <= |programs| == |records|
        invariant Records() == records
        invariant launched == old(launched) + Commands(records[..i])
      {
        var program := programs[i];
        RecordsOfAt(programs, i);
        ghost var before := launched;
        if program.remove {
          ExecuteWingetCommand(Uninstall, program.programName);
        }
        ghost var removed := launched;
        assert removed == before + if program.remove then [Launch(Uninstall, program.programName)] else [];
        if program.update {
          ExecuteWingetCommand(Upgrade, program.programName);
        }
        assert launched == removed + if program.update then [Launch(Upgrade, program.programName)] else [];
        CommandsStep(records, i, old(launched), before, launched);
        i := i + 1;
      }
      assert records[..i] == records;
    }
  }
}
