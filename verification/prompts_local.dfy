/** The local prompt builder: chat records are single-entry mappings from a
    role to its content, and a single-call prompt is one string framed by the
    input and output roles. The additional prompt of a chat goes after the
    history. */
module LocalPrompts {
  import opened Common

  /** `make`: the mapping `{role: content}`. */
  function Make(role: string, content: string): (record: map<string, string>)
    ensures record.Keys == {role} && record[role] == content
  {
    map[role := content]
  }

  /** `x or ''` for an optional role. */
  function OrEmpty(s: Option<string>): (r: string)
    ensures s.Some? ==> r == s.value
    ensures s.None? ==> r == ""
  {
    if s.Some? then s.value else ""
  }

  class Prompt {
    /** The chat history (`self.iteration`). */
    var iteration: seq<map<string, string>>

    constructor ()
      ensures iteration == []
    {
      iteration := [];
    }

    /** `call`: the content framed by the input role and the output role, a
        missing role counting as the empty string. */
    function Call(role: IoRoles, content: string): (prompt: string)
      ensures |prompt| == |OrEmpty(role.input)| + |content| + |OrEmpty(role.output)|
      ensures prompt[..|OrEmpty(role.input)|] == OrEmpty(role.input)
      ensures prompt[|OrEmpty(role.input)|..|OrEmpty(role.input)| + |content|] == content
      ensures prompt[|OrEmpty(role.input)| + |content|..] == OrEmpty(role.output)
      ensures role.input.None? && role.output.None? ==> prompt == content
    {
      OrEmpty(role.input) + content + OrEmpty(role.output)
    }

    /** `chat`: the history, then the additional prompt under the prompt role
        when it is non-empty, then the user's content under the input role.
        The history itself is only read. */
    function Chat(role: Role, content: string, addition: Option<string>): (prompt: seq<map<string, string>>)
      reads this
      ensures |prompt| == |iteration| + 1 + (if Present(addition) then 1 else 0)
      ensures prompt[..|iteration|] == iteration
      ensures Present(addition) ==> prompt[|iteration|] == Make(role.prompt, addition.value)
      ensures prompt[|prompt| - 1] == Make(role.input, content)
    {
      var additional := if Present(addition) then [Make(role.prompt, addition.value)] else [];
      iteration + additional + [Make(role.input, content)]
    }

    /** `iterate`: reset the history unless `keep`, then record the turn when
        both its role and its content are given. */
    method Iterate(role: Option<string>, content: Option<string>, keep: bool)
      modifies this
      ensures iteration == Iterated(old(iteration),
        if role.Some? && content.Some? then Some(Make(role.value, content.value)) else None, keep)
    {
      if !keep {
        iteration := [];
      }
      if role.Some? && content.Some? {
        var lastRecord := Make(role.value, content.value);
        iteration := iteration + [lastRecord];
      }
    }
  }
}
