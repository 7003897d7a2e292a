/** The remote prompt builder. It extends the base builder (its history and
    records); a remote server takes the additional prompt either as a leading
    record or, under the role `'system'`, as a separate system value. */
module RemotePrompts {
  import opened Common
  import BasePrompts

  /** The role name under which the additional prompt is passed separately. */
  const SystemRole := "system"

  /** The builder with the base builder's state: the subclass relation is
      modelled by holding the base object, whose history it shares. */
  class PromptRemote {
    const base: BasePrompts.Prompt

    constructor ()
      ensures fresh(base) && base.iteration == []
    {
      base := new BasePrompts.Prompt();
    }

    /** `chat`: the records to send and the system value. A non-empty addition
        becomes the first record, unless the prompt role is `'system'`, in
        which case it is returned as the system value instead. The history
        follows, then the user's content under the input role. */
    function Chat(role: Role, content: string, addition: Option<string>): (r: (seq<Message>, Option<string>))
      reads base
      ensures var (prompt, system) := r;
        && |prompt| >= 1
        && prompt[|prompt| - 1] == BasePrompts.Prompt.Make(role.input, content)
        && (Present(addition) && role.prompt != SystemRole ==>
              && system.None?
              && prompt == [BasePrompts.Prompt.Make(role.prompt, addition.value)] + base.iteration + [prompt[|prompt| - 1]])
        && (Present(addition) && role.prompt == SystemRole ==>
              system == addition && prompt[..|prompt| - 1] == base.iteration)
        && (!Present(addition) ==> system.None? && prompt[..|prompt| - 1] == base.iteration)
    {
      var user := BasePrompts.Prompt.Make(role.input, content);
      if Present(addition) && role.prompt != SystemRole then
        ([BasePrompts.Prompt.Make(role.prompt, addition.value)] + base.iteration + [user], None)
      else if Present(addition) && role.prompt == SystemRole then
        (base.iteration + [user], addition)
      else
        (base.iteration + [user], None)
    }

    /** `call`: the prompt of a single call is the content itself. */
    static function Call(content: string): (prompt: string)
      ensures prompt == content
    {
      content
    }
  }

  /** The system value is set exactly when a non-empty addition goes to the
      `'system'` role, and then the addition is not among the records: the
      records are the history and the user's turn. */
  lemma SystemValueExclusive(p: PromptRemote, role: Role, content: string, addition: Option<string>)
    ensures var (prompt, system) := p.Chat(role, content, addition);
      && (system.Some? <==> Present(addition) && role.prompt == SystemRole)
      && |prompt| == |p.base.iteration| + (if system.None? && Present(addition) then 2 else 1)
  {
  }
}
