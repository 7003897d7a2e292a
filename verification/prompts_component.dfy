/** The shared prompt builder: a chat history of role-tagged records, from
    which single-call and chat prompts are built. The additional prompt of a
    chat goes in front of the history. */
module ComponentPrompts {
  import opened Common

  /** The record `make_new_inference(role, content)` builds. */
  function Record(role: string, content: string): Message
  {
    Message(role, content)
  }

  class Prompt {
    /** The chat history (`self.iteration`). */
    var iteration: seq<Message>

    constructor ()
      ensures iteration == []
    {
      iteration := [];
    }

    /** `call`: the prompt of a single call is the content itself. */
    function Call(content: string): (prompt: string)
      ensures prompt == content
    {
      content
    }

    /** `chat`: the additional prompt (when non-empty) under the prompt role,
        then the history, then the user's content under the input role. The
        history itself is only read. */
    function Chat(role: Role, content: string, addition: Option<string>): (prompt: seq<Message>)
      reads this
      ensures |prompt| == |iteration| + 1 + (if Present(addition) then 1 else 0)
      ensures prompt[|prompt| - 1] == Record(role.input, content)
      ensures Present(addition) ==>
        prompt[0] == Record(role.prompt, addition.value) && prompt[1..|prompt| - 1] == iteration
      ensures !Present(addition) ==> prompt[..|prompt| - 1] == iteration
    {
      var additional := if Present(addition) then [Record(role.prompt, addition.value)] else [];
      additional + iteration + [Record(role.input, content)]
    }

    /** `iterate`: reset the history unless `keep`, then record the turn when
        both its role and its content are given. */
    method Iterate(role: Option<string>, content: Option<string>, keep: bool)
      modifies this
      ensures iteration == Iterated(old(iteration),
        if role.Some? && content.Some? then Some(Record(role.value, content.value)) else None, keep)
    {
      if !keep {
        iteration := [];
      }
      if role.Some? && content.Some? {
        var lastRecord := Record(role.value, content.value);
        iteration := iteration + [lastRecord];
      }
    }
  }
}
