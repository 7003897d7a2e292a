/** The log database and the queries the conversation log runs against it.

    The database holds a table of sections and a table of branches; a branch
    names its section in `belonging`. Here the branch table is split by section:
    `sections[k].branches` holds the branches of section `k`, and `StoreValid`
    states that every branch stored there does belong to `k`, so a query
    `Branch.belonging == k` is a scan of that sequence. JSON text columns hold
    the values they encode (`iterations` is a list of iterations, `role` a role
    mapping). */
module LogOperations {
  import opened Common

  /** The section column `type`: `'call'` or `'chat'`. */
  datatype Mode = Call | Chat

  /** A row of the branch table. */
  datatype BranchRow = BranchRow(id: int, belonging: Option<int>, iterations: seq<Iteration>)

  /** A row of the section table together with the branch rows that belong to it. */
  datatype SectionRow = SectionRow(
    id: int,
    mode: Option<Mode>,
    model: Option<string>,
    addition: Option<string>,
    role: Option<Role>,
    temperature: Option<real>,
    createAt: real,
    branches: seq<BranchRow>)

  /** The database content: section rows by primary key. */
  type Store = map<int, SectionRow>

  /** `Section(id=id)`: every column unset, creation time taken at construction. */
  function NewSection(id: int, now: real): SectionRow
  {
    SectionRow(id, None, None, None, None, None, now, [])
  }

  /** `Branch(id=id)`: no section yet and no iterations. */
  function NewBranch(id: int): BranchRow
  {
    BranchRow(id, None, [])
  }

  /** The branch filter `(Branch.belonging == section) & (Branch.id == id)`. */
  predicate Matches(b: BranchRow, section: int, id: int)
  {
    b.belonging == Some(section) && b.id == id
  }

  ghost predicate UniqueBranchIds(branches: seq<BranchRow>)
  {
    forall i, j :: 0 <= i < j < |branches| ==> branches[i].id != branches[j].id
  }

  /** What every stored section row satisfies: it sits under its own key, it has
      been written by a call or a chat (so its mode is set), its branches belong
      to it, have distinct non-negative ids and at least one iteration, and in a
      call section each branch holds exactly one iteration. */
  ghost predicate RowValid(k: int, row: SectionRow)
  {
    && row.id == k
    && k >= 0
    && row.mode.Some?
    && (forall b <- row.branches :: b.belonging == Some(k) && b.id >= 0 && |b.iterations| >= 1)
    && UniqueBranchIds(row.branches)
    && (row.mode == Some(Call) ==> forall b <- row.branches :: |b.iterations| == 1)
  }

  ghost predicate StoreValid(store: Store)
  {
    forall k | k in store :: RowValid(k, store[k])
  }

  /** The database session the log writes through. */
  class Logbase {
    var sections: Store

    /** A fresh, empty database. */
    constructor ()
      ensures sections == map[]
    {
      sections := map[];
    }
  }

  /** The position of the first branch the filter selects, if any
      (`session.exec(statement).first()`). */
  function FindBranch(branches: seq<BranchRow>, section: int, id: int): (r: Option<nat>)
    ensures r.Some? ==> r.value < |branches| && Matches(branches[r.value], section, id)
    ensures r.Some? ==> forall i :: 0 <= i < r.value ==> !Matches(branches[i], section, id)
    ensures r.None? ==> forall i :: 0 <= i < |branches| ==> !Matches(branches[i], section, id)
  {
    if branches == [] then None
    else if Matches(branches[0], section, id) then Some(0)
    else
      match FindBranch(branches[1..], section, id)
      case None => None
      case Some(k) => Some(k + 1)
  }

  /** `get_section`: the row with primary key `id`, or `None`. */
  function GetSection(store: Store, id: int): (r: Option<SectionRow>)
    ensures r.Some? <==> id in store
    ensures r.Some? && StoreValid(store) ==> r.value.id == id && r.value.mode.Some?
  {
    if id in store then Some(store[id]) else None
  }

  /** `get_branch`: the branch with id `id` that belongs to `section`, or `None`. */
  function GetBranch(store: Store, section: int, id: int): (r: Option<BranchRow>)
    ensures r.Some? ==> section in store && r.value in store[section].branches && Matches(r.value, section, id)
    ensures r.None? ==> section !in store || forall b <- store[section].branches :: !Matches(b, section, id)
  {
    if section !in store then None
    else
      match FindBranch(store[section].branches, section, id)
      case None => None
      case Some(i) => Some(store[section].branches[i])
  }

  /** A non-empty set of integers has a largest element. */
  lemma {:induction false} MaxExists(ids: set<int>)
    requires ids != {}
    ensures exists m :: m in ids && forall k :: k in ids ==> k <= m
    decreases |ids|
  {
    // A set without elements is the empty set.
    assert (forall k :: k !in ids) ==> ids == {};
    var x :| x in ids;
    if ids == {x} {
      assert forall k :: k in ids ==> k <= x;
    } else {
      var rest := ids - {x};
      MaxExists(rest);
      var m :| m in rest && forall k :: k in rest ==> k <= m;
      var top := if x <= m then m else x;
      forall k | k in ids
        ensures k <= top
      {
        if k != x {
          assert k in rest;
        }
      }
      assert top in ids;
    }
  }

  /** Python's `max(ids)`. */
  function MaxOf(ids: set<int>): (m: int)
    requires ids != {}
    ensures m in ids && forall k :: k in ids ==> k <= m
  {
    MaxExists(ids);
    var m :| m in ids && forall k :: k in ids ==> k <= m;
    m
  }

  /** The ids `select(Branch.id).where(Branch.belonging == section)` returns. */
  function BranchIds(store: Store, section: int): set<int>
  {
    if section in store then set b | b in store[section].branches && b.belonging == Some(section) :: b.id else {}
  }

  /** `get_latest_section_id`: the largest section id, or `None` when the
      table is empty. */
  function LatestSectionId(store: Store): (r: Option<int>)
    ensures r.None? <==> store == map[]
    ensures r.Some? ==> r.value in store && forall k | k in store :: k <= r.value
  {
    if store.Keys == {} then None else Some(MaxOf(store.Keys))
  }

  /** `get_latest_branch_id`: the largest id among the branches of `section`,
      or `None` when it has none. */
  function LatestBranchId(store: Store, section: int): (r: Option<int>)
    ensures r.None? <==> section !in store || forall b <- store[section].branches :: b.belonging != Some(section)
    ensures r.Some? ==> exists b <- store[section].branches :: Matches(b, section, r.value)
    ensures r.Some? ==> forall b <- store[section].branches :: b.belonging == Some(section) ==> b.id <= r.value
  {
    var ids := BranchIds(store, section);
    if ids == {} then
      assert section in store ==> forall b <- store[section].branches :: b.belonging == Some(section) ==> b.id in ids;
      None
    else
      var m := MaxOf(ids);
      assert m in ids;
      assert forall b <- store[section].branches :: b.belonging == Some(section) ==> b.id in ids;
      Some(m)
  }

  /** The branch row `update_record` leaves in the database: the given branch,
      attached to `section`. */
  function Attached(section: int, branch: BranchRow): (w: BranchRow)
    ensures Matches(w, section, branch.id) && w.iterations == branch.iterations
  {
    BranchRow(branch.id, Some(section), branch.iterations)
  }

  /** The branches of a section after `update_record` wrote `branch` into it:
      a branch already stored under the same id gets the new iterations,
      otherwise the branch is appended. No other branch changes. */
  function Upsert(branches: seq<BranchRow>, section: int, branch: BranchRow): (r: seq<BranchRow>)
    ensures |r| == |branches| || |r| == |branches| + 1
    ensures |r| == |branches| + 1 <==> forall b <- branches :: !Matches(b, section, branch.id)
    ensures |r| == |branches| + 1 ==> r == branches + [Attached(section, branch)]
    ensures forall i :: 0 <= i < |branches| && !Matches(branches[i], section, branch.id) ==> r[i] == branches[i]
    ensures forall b <- r :: b == Attached(section, branch) || b in branches
  {
    match FindBranch(branches, section, branch.id)
    case Some(i) => branches[i := Attached(section, branch)]
    case None => branches + [Attached(section, branch)]
  }

  /** After a write, the branch filter finds exactly the branch written. */
  lemma UpsertFinds(branches: seq<BranchRow>, section: int, branch: BranchRow)
    ensures var r := Upsert(branches, section, branch);
      var i := FindBranch(r, section, branch.id);
      i.Some? && r[i.value] == Attached(section, branch)
  {
    var r := Upsert(branches, section, branch);
    match FindBranch(branches, section, branch.id)
    case Some(i) =>
      assert r[i] == Attached(section, branch);
      assert forall j :: 0 <= j < i ==> r[j] == branches[j];
    case None =>
      assert r[|branches|] == Attached(section, branch);
  }

  /** A write keeps the ids of a section's branches distinct. */
  lemma UpsertKeepsUnique(branches: seq<BranchRow>, section: int, branch: BranchRow)
    requires UniqueBranchIds(branches)
    requires forall b <- branches :: b.belonging == Some(section)
    ensures UniqueBranchIds(Upsert(branches, section, branch))
  {
    var r := Upsert(branches, section, branch);
    match FindBranch(branches, section, branch.id)
    case Some(i) =>
      forall j, k | 0 <= j < k < |r|
        ensures r[j].id != r[k].id
      {
        if j != i && k != i {
          assert r[j] == branches[j] && r[k] == branches[k];
        } else if j == i {
          assert r[k] == branches[k];
        } else {
          assert r[j] == branches[j];
        }
      }
    case None =>
      forall j, k | 0 <= j < k < |r|
        ensures r[j].id != r[k].id
      {
        if k == |branches| {
          assert r[j] == branches[j];
          assert !Matches(branches[j], section, branch.id);
        }
      }
  }

  /** The section row `update_record` leaves in the database. An existing row
      takes the model, addition, role and temperature of the given section and
      the written branch; its id, type and creation time stay. A new row is the
      given section with the branch appended. */
  function Committed(store: Store, section: SectionRow, branch: BranchRow): (row: SectionRow)
    ensures row.model == section.model && row.addition == section.addition
    ensures row.role == section.role && row.temperature == section.temperature
    ensures section.id in store ==>
      var old_row := store[section.id];
      && row.id == old_row.id && row.mode == old_row.mode && row.createAt == old_row.createAt
      && row.branches == Upsert(old_row.branches, section.id, branch)
    ensures section.id !in store ==>
      row.id == section.id && row.mode == section.mode && row.createAt == section.createAt
      && row.branches == section.branches + [Attached(section.id, branch)]
  {
    if section.id in store then
      store[section.id].(model := section.model, addition := section.addition, role := section.role,
                         temperature := section.temperature,
                         branches := Upsert(store[section.id].branches, section.id, branch))
    else
      section.(branches := section.branches + [Attached(section.id, branch)])
  }

  /** A write keeps the database valid, provided the written branch has a valid
      id and at least one iteration, a new section row has a mode and no
      branches yet, and a call section receives branches of one iteration. */
  lemma CommitKeepsValid(store: Store, section: SectionRow, branch: BranchRow)
    requires StoreValid(store)
    requires section.id >= 0 && branch.id >= 0 && |branch.iterations| >= 1
    requires section.id !in store ==> section.mode.Some? && section.branches == []
    requires Committed(store, section, branch).mode == Some(Call) ==> |branch.iterations| == 1
    ensures StoreValid(store[section.id := Committed(store, section, branch)])
  {
    var row := Committed(store, section, branch);
    var w := Attached(section.id, branch);
    if section.id in store {
      var old_row := store[section.id];
      assert RowValid(section.id, old_row);
      UpsertKeepsUnique(old_row.branches, section.id, branch);
      assert forall b <- row.branches :: b == w || b in old_row.branches;
    } else {
      assert row.branches == [w];
    }
    assert RowValid(section.id, row);
  }

  /** `update_record`: writes a section and one of its branches, inserting the
      section row when it does not exist yet, and returns the rows as stored. */
  method UpdateRecord(session: Logbase, section: SectionRow, branch: BranchRow)
    returns (written: BranchRow, stored: SectionRow)
    modifies session
    ensures written == Attached(section.id, branch)
    ensures stored == Committed(old(session.sections), section, branch)
    ensures session.sections == old(session.sections)[section.id := stored]
  {
    written := BranchRow(branch.id, Some(section.id), branch.iterations);
    if section.id in session.sections {
      var row := session.sections[section.id];
      row := row.(model := section.model, addition := section.addition, role := section.role,
                  temperature := section.temperature);
      var found := FindBranch(row.branches, section.id, branch.id);
      if found.Some? {
        row := row.(branches := row.branches[found.value := written]);
      } else {
        row := row.(branches := row.branches + [written]);
      }
      stored := row;
    } else {
      stored := section.(branches := section.branches + [written]);
    }
    session.sections := session.sections[section.id := stored];
  }
}
