/** The base prompt builder: keeps the chat history and makes its
    role-tagged records; the remote builder extends it. */
module BasePrompts {
  import opened Common

  class Prompt {
    /** The chat history (`self._iteration`). */
    var iteration: seq<Message>

    constructor ()
      ensures iteration == []
    {
      iteration := [];
    }

    /** `make`: the record `{'role': role, 'content': content}`. */
    static function Make(role: string, content: string): (record: Message)
      ensures record.role == role && record.content == content
    {
      Message(role, content)
    }

    /** `iterate`: reset the history unless `keep`, then record the turn when
        both its role and its content are given. */
    method Iterate(role: Option<string>, content: Option<string>, keep: bool)
      modifies this
      ensures iteration == Iterated(old(iteration),
        if role.Some? && content.Some? then Some(Make(role.value, content.value)) else None, keep)
    {
      if !keep {
        iteration := [];
      }
      if role.Some? && content.Some? {
        var lastRecord := Make(role.value, content.value);
        iteration := iteration + [lastRecord];
      }
    }
  }
}
