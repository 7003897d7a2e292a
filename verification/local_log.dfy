/** The in-memory log of the local model: an id counter and a list of
    records, one per single call and one per chat conversation. */
module LocalLogs {
  import opened Common

  /** The role dictionary stored with a record, as passed in. */
  type RoleDict = map<string, Option<string>>

  /** A history record; the constructor is its `type`. A call record has no
      `prompt` entry. */
  datatype Record =
    | CallRecord(id: int, createAt: real, model: string, role: RoleDict, iteration: seq<Iteration>,
                 temperature: real, strategy: string)
    | ChatRecord(id: int, createAt: real, model: string, prompt: Option<string>, role: RoleDict,
                 iteration: seq<Iteration>, temperature: real, strategy: string)

  /** `new`: a chat record with the given id and no iterations yet. */
  function New(id: int, model: string, prompt: Option<string>, role: RoleDict, temperature: real,
               strategy: string, now: real): (r: Record)
    ensures r.ChatRecord? && r.id == id && r.iteration == []
    ensures r.model == model && r.prompt == prompt && r.role == role
    ensures r.temperature == temperature && r.strategy == strategy
  {
    ChatRecord(id, now, model, prompt, role, [], temperature, strategy)
  }

  ghost predicate IdsIncreasing(h: seq<Record>)
  {
    forall i, j :: 0 <= i < j < |h| ==> h[i].id < h[j].id
  }

  ghost predicate IdsWithin(h: seq<Record>, top: int)
  {
    forall i :: 0 <= i < |h| ==> 1 <= h[i].id <= top
  }

  /** Records get distinct ids from 1 to the counter, so the history never
      holds more records than ids have been handed out. */
  lemma {:induction false} HistoryBoundedByCounter(h: seq<Record>, top: int)
    requires top >= 0 && IdsIncreasing(h) && IdsWithin(h, top)
    ensures |h| <= top
    decreases |h|
  {
    if h != [] {
      var front := h[..|h| - 1];
      var last := h[|h| - 1];
      assert IdsIncreasing(front);
      assert forall i :: 0 <= i < |front| ==> front[i].id < last.id;
      assert 1 <= last.id <= top;
      assert IdsWithin(front, last.id - 1);
      HistoryBoundedByCounter(front, last.id - 1);
    }
  }

  /** Whether a chat continues the last record: `keep` is set and the
      history ends with a chat record. */
  predicate Continues(history: seq<Record>, keep: bool)
  {
    keep && history != [] && history[|history| - 1].ChatRecord?
  }

  class Log {
    var id: int
    var history: seq<Record>

    /** Record ids rise strictly along the history, lie between 1 and the
        counter, and the last record carries the counter. */
    ghost predicate Valid()
      reads this
    {
      && id >= 0
      && IdsIncreasing(history)
      && IdsWithin(history, id)
      && (history != [] ==> history[|history| - 1].id == id)
    }

    constructor ()
      ensures Valid()
      ensures id == 0 && history == []
    {
      id := 0;
      history := [];
    }

    /** `call`: take the next id and append a call record holding the one
        iteration. */
    method Call(model: string, role: RoleDict, input: string, output: string, temperature: real,
                strategy: string, now: real)
      requires Valid()
      modifies this
      ensures Valid()
      ensures id == old(id) + 1
      ensures history == old(history) + [CallRecord(id, now, model, role, [Iteration(input, output)], temperature, strategy)]
    {
      id := id + 1;
      var record := CallRecord(id, now, model, role, [Iteration(input, output)], temperature, strategy);
      history := history + [record];
    }

    /** `chat`: with `keep` and a chat record last, add the iteration to that
        record, which keeps its id, model, prompt, role and temperature;
        otherwise take the next id and append a new chat record holding the
        one iteration. */
    method Chat(model: string, prompt: Option<string>, role: RoleDict, input: string, output: string,
                temperature: real, strategy: string, keep: bool, now: real)
      requires Valid()
      modifies this
      ensures Valid()
      ensures Continues(old(history), keep) ==>
        var last := old(history)[|old(history)| - 1];
        && id == old(id)
        && history == old(history)[..|old(history)| - 1] + [last.(iteration := last.iteration + [Iteration(input, output)])]
      ensures !Continues(old(history), keep) ==>
        && id == old(id) + 1
        && history == old(history) + [New(id, model, prompt, role, temperature, strategy, now).(iteration := [Iteration(input, output)])]
    {
      var record: Record;
      if keep && history != [] {
        if history[|history| - 1].ChatRecord? {
          record := history[|history| - 1];
          history := history[..|history| - 1];
        } else {
          id := id + 1;
          record := New(id, model, prompt, role, temperature, strategy, now);
        }
      } else {
        id := id + 1;
        record := New(id, model, prompt, role, temperature, strategy, now);
      }
      assert record.iteration + [Iteration(input, output)] == [Iteration(input, output)] || Continues(old(history), keep);
      record := record.(iteration := record.iteration + [Iteration(input, output)]);
      history := history + [record];
    }
  }
}
