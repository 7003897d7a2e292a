/** The conversation log: a cursor over the log database that selects a
    section and one of its branches, records call and chat iterations into
    them, and reads stored records back. */
module Logs {
  import opened Common
  import opened LogErrors
  import opened LogOperations

  /** What `get` raises: a log error, or `ValueError('Invalid input.')` for a
      negative section or branch id. */
  datatype ReadError = Log(error: LogError) | InvalidInput

  /** The readable record `get` returns: the section's columns and one branch. */
  datatype Snapshot = Snapshot(
    id: int,
    mode: Option<Mode>,
    model: Option<string>,
    addition: Option<string>,
    role: Option<Role>,
    temperature: Option<real>,
    createAt: real,
    branch: BranchRow)

  function SnapshotOf(row: SectionRow, b: BranchRow): Snapshot
  {
    Snapshot(row.id, row.mode, row.model, row.addition, row.role, row.temperature, row.createAt, b)
  }

  /** The id a new section or branch receives: one past the latest, or 0. */
  function NextId(latest: Option<int>): int
  {
    match latest
    case None => 0
    case Some(l) => l + 1
  }

  /** A new section id is not taken, exceeds every stored id, and is 0 exactly
      when nothing is stored. */
  lemma NewSectionIdFresh(store: Store)
    requires StoreValid(store)
    ensures var n := NextId(LatestSectionId(store));
      && n >= 0 && n !in store
      && (forall k | k in store :: k < n)
      && (n == 0 <==> store == map[])
  {
    var latest := LatestSectionId(store);
    if latest.Some? {
      assert RowValid(latest.value, store[latest.value]);
    }
  }

  /** Once the allocated section is written, the next allocation is the
      following integer: section ids are handed out as 0, 1, 2, ... */
  lemma SectionIdsConsecutive(store: Store, row: SectionRow)
    requires StoreValid(store)
    ensures var n := NextId(LatestSectionId(store));
      NextId(LatestSectionId(store[n := row])) == n + 1
  {
    var n := NextId(LatestSectionId(store));
    NewSectionIdFresh(store);
    var latest := LatestSectionId(store[n := row]);
    assert n in store[n := row];
    assert latest.value == n;
  }

  /** A new branch id is not taken in its section, exceeds the ids of the
      section's branches, and is 0 exactly when the section has none. */
  lemma NewBranchIdFresh(store: Store, section: int)
    requires StoreValid(store)
    ensures var n := NextId(LatestBranchId(store, section));
      && n >= 0 && GetBranch(store, section, n).None?
      && (section in store ==> forall b <- store[section].branches :: b.id < n)
      && (n == 0 <==> section !in store || store[section].branches == [])
  {
    if section in store {
      assert RowValid(section, store[section]);
      var latest := LatestBranchId(store, section);
      assert store[section].branches != [] ==> store[section].branches[0].belonging == Some(section);
      if latest.Some? {
        var b :| b in store[section].branches && Matches(b, section, latest.value);
        assert b.id >= 0;
      }
    }
  }

  /** Once the allocated branch is written, the next allocation in that
      section is the following integer. */
  lemma BranchIdsConsecutive(store: Store, section: SectionRow, b: BranchRow)
    requires StoreValid(store)
    requires section.id !in store ==> section.branches == []
    requires b.id == NextId(LatestBranchId(store, section.id))
    ensures NextId(LatestBranchId(store[section.id := Committed(store, section, b)], section.id)) == b.id + 1
  {
    NewBranchIdFresh(store, section.id);
    var w := Attached(section.id, b);
    var before := if section.id in store then store[section.id].branches else [];
    var row := Committed(store, section, b);
    assert row.branches == before + [w] by {
      if section.id in store {
        assert forall c <- before :: !Matches(c, section.id, b.id);
      }
    }
    var store' := store[section.id := row];
    assert w in store'[section.id].branches by {
      assert row.branches[|before|] == w;
    }
    var latest := LatestBranchId(store', section.id);
    var c :| c in row.branches && Matches(c, section.id, latest.value);
    assert c == w || c in before;
  }

  /** The cursor's section is the stored row, or a new, unwritten one. */
  ghost predicate SectionCursorOk(store: Store, s: SectionRow)
  {
    && s.id >= 0
    && (s.id in store ==> s == store[s.id])
    && (s.id !in store ==> s.mode.None? && s.branches == [])
  }

  /** The cursor's branch is the stored branch with its iterations, or a new,
      unwritten one with none. */
  ghost predicate BranchCursorOk(store: Store, s: SectionRow, b: BranchRow, iterations: seq<Iteration>)
  {
    && b.id >= 0
    && match GetBranch(store, s.id, b.id)
       case Some(stored) => b == stored && iterations == stored.iterations
       case None => b.iterations == [] && iterations == []
  }

  class Log {
    const logbase: Logbase
    var section: Option<SectionRow>
    var branch: Option<BranchRow>
    var iterations: Option<seq<Iteration>>

    ghost predicate Valid()
      reads this, logbase
    {
      && StoreValid(logbase.sections)
      && (section.None? ==> branch.None?)
      && (branch.Some? <==> iterations.Some?)
      && (section.Some? ==> SectionCursorOk(logbase.sections, section.value))
      && (section.Some? && branch.Some? ==>
            BranchCursorOk(logbase.sections, section.value, branch.value, iterations.value))
    }

    /** `Log(logbase)`: nothing selected yet. */
    constructor (logbase: Logbase)
      requires StoreValid(logbase.sections)
      ensures Valid()
      ensures this.logbase == logbase
      ensures section.None? && branch.None? && iterations.None?
    {
      this.logbase := logbase;
      section := None;
      branch := None;
      iterations := None;
    }

    /** `change_section`: select a stored section, or start a new one for a
        negative id; either way no branch is selected afterwards. */
    method ChangeSection(id: int, now: real) returns (out: Outcome<LogError>)
      requires Valid()
      modifies this
      ensures Valid()
      ensures id >= 0 && id !in logbase.sections ==> out == Fail(SectionNotCreated(id)) && unchanged(this)
      ensures id >= 0 && id in logbase.sections ==> out == Pass && section == Some(logbase.sections[id])
      ensures id < 0 ==> out == Pass && section == Some(NewSection(NextId(LatestSectionId(logbase.sections)), now))
      ensures out.Pass? ==> branch.None? && iterations.None?
    {
      if id >= 0 {
        var found := GetSection(logbase.sections, id);
        if found.Some? {
          section := found;
        } else {
          return Fail(SectionNotCreated(id));
        }
      } else {
        var latest := LatestSectionId(logbase.sections);
        var newId := if latest.None? then 0 else latest.value + 1;
        NewSectionIdFresh(logbase.sections);
        section := Some(NewSection(newId, now));
      }
      branch := None;
      iterations := None;
      out := Pass;
    }

    /** `change_branch`: within the selected section, select a stored branch
        with its iterations, or start a new, empty one for a negative id. */
    method ChangeBranch(id: int) returns (out: Outcome<LogError>)
      requires Valid()
      modifies this
      ensures Valid()
      ensures section == old(section)
      ensures section.None? ==> out == Fail(SectionNotSet) && unchanged(this)
      ensures section.Some? && id >= 0 ==>
        match GetBranch(logbase.sections, section.value.id, id)
        case Some(b) => out == Pass && branch == Some(b) && iterations == Some(b.iterations)
        case None => out == Fail(BranchNotCreated(section.value.id, id)) && unchanged(this)
      ensures section.Some? && id < 0 ==>
        && out == Pass
        && branch == Some(NewBranch(NextId(LatestBranchId(logbase.sections, section.value.id))))
        && iterations == Some([])
    {
      if section.None? {
        return Fail(SectionNotSet);
      }
      if id >= 0 {
        var found := GetBranch(logbase.sections, section.value.id, id);
        if found.Some? {
          branch := found;
          iterations := Some(found.value.iterations);
        } else {
          return Fail(BranchNotCreated(section.value.id, id));
        }
      } else {
        var latest := LatestBranchId(logbase.sections, section.value.id);
        var newId := if latest.None? then 0 else latest.value + 1;
        NewBranchIdFresh(logbase.sections, section.value.id);
        branch := Some(NewBranch(newId));
        iterations := Some([]);
      }
      out := Pass;
    }

    /** `call`: record one single-call inference as the only iteration of a
        new branch in a call section. */
    method Call(model: string, input: string, output: string, temperature: real) returns (out: Outcome<LogError>)
      requires Valid()
      modifies this, logbase
      ensures Valid()
      ensures old(section).None? ==> out == Fail(SectionNotSet)
      ensures old(section).Some? && old(branch).None? ==> out == Fail(BranchNotSet)
      ensures old(section).Some? && old(branch).Some? ==>
        (out == Fail(InferenceMode) <==> old(section).value.mode == Some(Mode.Chat) || old(iterations).value != [])
      ensures out.Pass? <==>
        old(section).Some? && old(branch).Some? && old(section).value.mode != Some(Mode.Chat) && old(iterations).value == []
      ensures out.Fail? ==> unchanged(this) && unchanged(logbase)
      ensures out.Pass? ==>
        var s := old(section).value.(mode := Some(Mode.Call), model := Some(model), temperature := Some(temperature));
        var b := old(branch).value.(iterations := [Iteration(input, output)]);
        && section == Some(Committed(old(logbase.sections), s, b))
        && branch == Some(Attached(s.id, b))
        && iterations == Some([Iteration(input, output)])
        && logbase.sections == old(logbase.sections)[s.id := section.value]
      ensures out.Pass? ==> section.value.mode == Some(Mode.Call) && section.value.model == Some(model)
      ensures out.Pass? ==> Get(section.value.id, branch.value.id) == Ok(SnapshotOf(section.value, branch.value))
    {
      if section.None? {
        return Fail(SectionNotSet);
      }
      if branch.None? {
        return Fail(BranchNotSet);
      }
      if section.value.mode == Some(Mode.Chat) || iterations.value != [] {
        return Fail(InferenceMode);
      }
      assert SectionCursorOk(logbase.sections, section.value);
      if section.value.id in logbase.sections {
        assert RowValid(section.value.id, logbase.sections[section.value.id]);
        assert section.value.mode.value != Mode.Chat;
      }
      iterations := Some(iterations.value + [Iteration(input, output)]);
      assert iterations.value == [Iteration(input, output)];
      branch := Some(branch.value.(iterations := iterations.value));
      section := Some(section.value.(mode := Some(Mode.Call), model := Some(model), temperature := Some(temperature)));
      Commit();
      out := Pass;
    }

    /** `chat`: append one iteration of a chat to the selected branch of a chat
        section, recording the model, addition, role and temperature. */
    method Chat(model: string, addition: Option<string>, role: Role, input: string, output: string,
                temperature: real) returns (out: Outcome<LogError>)
      requires Valid()
      modifies this, logbase
      ensures Valid()
      ensures old(section).None? ==> out == Fail(SectionNotSet)
      ensures old(section).Some? && old(branch).None? ==> out == Fail(BranchNotSet)
      ensures old(section).Some? && old(branch).Some? ==>
        (out == Fail(InferenceMode) <==> old(section).value.mode == Some(Mode.Call))
      ensures out.Pass? <==> old(section).Some? && old(branch).Some? && old(section).value.mode != Some(Mode.Call)
      ensures out.Fail? ==> unchanged(this) && unchanged(logbase)
      ensures out.Pass? ==>
        var s := old(section).value.(mode := Some(Mode.Chat), model := Some(model), addition := addition,
                                      role := Some(role), temperature := Some(temperature));
        var it := old(iterations).value + [Iteration(input, output)];
        var b := old(branch).value.(iterations := it);
        && section == Some(Committed(old(logbase.sections), s, b))
        && branch == Some(Attached(s.id, b))
        && iterations == Some(it)
        && logbase.sections == old(logbase.sections)[s.id := section.value]
      ensures out.Pass? ==> section.value.mode == Some(Mode.Chat) && section.value.role == Some(role)
      ensures out.Pass? ==> Get(section.value.id, branch.value.id) == Ok(SnapshotOf(section.value, branch.value))
    {
      if section.None? {
        return Fail(SectionNotSet);
      }
      if branch.None? {
        return Fail(BranchNotSet);
      }
      if section.value.mode == Some(Mode.Call) {
        return Fail(InferenceMode);
      }
      assert SectionCursorOk(logbase.sections, section.value);
      if section.value.id in logbase.sections {
        assert RowValid(section.value.id, logbase.sections[section.value.id]);
        assert section.value.mode.value != Mode.Call;
      }
      iterations := Some(iterations.value + [Iteration(input, output)]);
      branch := Some(branch.value.(iterations := iterations.value));
      section := Some(section.value.(mode := Some(Mode.Chat), model := Some(model), addition := addition,
                                     role := Some(role), temperature := Some(temperature)));
      Commit();
      out := Pass;
    }

    /** The write both record methods end with: `update_record` on the cursor,
        whose section and branch then become the stored rows. The cursor has
        just been given a mode and its branch one more iteration. */
    method Commit()
      requires section.Some? && branch.Some? && iterations.Some?
      requires StoreValid(logbase.sections)
      requires var s := section.value;
        && s.id >= 0 && s.mode.Some?
        && (s.id in logbase.sections ==> s.mode == logbase.sections[s.id].mode
                                          && s.branches == logbase.sections[s.id].branches)
        && (s.id !in logbase.sections ==> s.branches == [])
      requires branch.value.id >= 0 && branch.value.iterations == iterations.value && |iterations.value| >= 1
      requires section.value.mode == Some(Mode.Call) ==> |iterations.value| == 1
      requires GetBranch(logbase.sections, section.value.id, branch.value.id).None? ==> |iterations.value| == 1
      modifies this, logbase
      ensures Valid()
      ensures section == Some(Committed(old(logbase.sections), old(section).value, old(branch).value))
      ensures branch == Some(Attached(old(section).value.id, old(branch).value))
      ensures iterations == old(iterations)
      ensures logbase.sections == old(logbase.sections)[section.value.id := section.value]
      ensures Get(section.value.id, branch.value.id) == Ok(SnapshotOf(section.value, branch.value))
    {
      ghost var store := logbase.sections;
      var s, b := section.value, branch.value;
      CommitKeepsValid(store, s, b);
      var written, stored := UpdateRecord(logbase, s, b);
      branch, section := Some(written), Some(stored);
      if s.id in store {
        UpsertFinds(store[s.id].branches, s.id, b);
      } else {
        assert stored.branches == [written];
      }
      assert GetBranch(logbase.sections, s.id, b.id) == Some(written);
    }

    /** `get`: the stored section `section` with its branch `branch`. */
    function Get(section: int, branch: int): (r: Result<Snapshot, ReadError>)
      reads logbase
      ensures section < 0 || branch < 0 ==> r == Err(InvalidInput)
      ensures section >= 0 && branch >= 0 && section !in logbase.sections ==>
        r == Err(Log(SectionNotCreated(section)))
      ensures section >= 0 && branch >= 0 && section in logbase.sections ==>
        (r == Err(Log(BranchNotCreated(section, branch))) <==> GetBranch(logbase.sections, section, branch).None?)
      ensures section >= 0 && branch >= 0 && section in logbase.sections
              && GetBranch(logbase.sections, section, branch).Some? ==>
        r == Ok(SnapshotOf(logbase.sections[section], GetBranch(logbase.sections, section, branch).value))
      ensures r.Ok? ==> exists b <- logbase.sections[section].branches ::
        Matches(b, section, branch) && r.value == SnapshotOf(logbase.sections[section], b)
    {
      if section >= 0 && branch >= 0 then
        match GetSection(logbase.sections, section)
        case None => Err(Log(SectionNotCreated(section)))
        case Some(row) =>
          match GetBranch(logbase.sections, section, branch)
          case None => Err(Log(BranchNotCreated(section, branch)))
          case Some(b) => Ok(SnapshotOf(row, b))
      else
        Err(InvalidInput)
    }
  }

  /** A fresh database and log: starting a section and a branch and recording
      one call stores section 0 of type call with branch 0 holding the one
      iteration, which `get` reads back; branch 1 of that section does not
      exist. */
  method FirstCallRecorded(now: real) returns (record: Result<Snapshot, ReadError>, missing: Result<Snapshot, ReadError>)
    ensures record == Ok(Snapshot(0, Some(Mode.Call), Some("test_model"), None, None, Some(0.7), now,
                                  BranchRow(0, Some(0), [Iteration("Test!", "Success!")])))
    ensures missing == Err(Log(BranchNotCreated(0, 1)))
  {
    var logbase := new Logbase();
    var log := new Log(logbase);
    var _ := log.ChangeSection(-1, now);
    assert log.section == Some(NewSection(0, now));
    var _ := log.ChangeBranch(-1);
    assert log.branch == Some(NewBranch(0)) && log.iterations == Some([]);
    var _ := log.Call("test_model", "Test!", "Success!", 0.7);
    var b := BranchRow(0, Some(0), [Iteration("Test!", "Success!")]);
    assert log.branch == Some(b);
    assert log.section.value.branches == [b];
    record := log.Get(0, 0);
    missing := log.Get(0, 1);
  }

  /** Allocation looks only at stored sections: starting a new section twice
      without recording anything in between hands out the same id twice. */
  method UnwrittenSectionIdReused(now: real) returns (first: int, second: int)
    ensures first == 0 && second == 0
  {
    var logbase := new Logbase();
    var log := new Log(logbase);
    var _ := log.ChangeSection(-1, now);
    first := log.section.value.id;
    var _ := log.ChangeSection(-1, now);
    second := log.section.value.id;
  }
}
