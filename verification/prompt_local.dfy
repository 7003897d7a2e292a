/** The flat prompt of a local single-call inference: the message framed by
    the input role and the output role. */
module LocalPrompt {
  import opened Common

  /** `prompt(role, message)`. Both roles must be strings: concatenating an
      unset role fails. */
  function Prompt(role: IoRoles, message: string): (prompt: string)
    requires role.input.Some? && role.output.Some?
    ensures |prompt| == |role.input.value| + |message| + |role.output.value|
    ensures prompt[..|role.input.value|] == role.input.value
    ensures prompt[|prompt| - |role.output.value|..] == role.output.value
  {
    role.input.value + message + role.output.value
  }

  /** The message sits right after the input role, so it can be recovered
      from the prompt. */
  lemma MessageAtInputOffset(role: IoRoles, message: string)
    requires role.input.Some? && role.output.Some?
    ensures var p := Prompt(role, message);
      var start := |role.input.value|;
      p[start..start + |message|] == message
  {
    var p := Prompt(role, message);
    assert p == role.input.value + message + role.output.value;
    assert p[|role.input.value|..] == message + role.output.value;
  }

  /** Framing is injective in the message: different messages under the same
      roles give different prompts. */
  lemma PromptInjective(role: IoRoles, m1: string, m2: string)
    requires role.input.Some? && role.output.Some?
    requires Prompt(role, m1) == Prompt(role, m2)
    ensures m1 == m2
  {
    MessageAtInputOffset(role, m1);
    MessageAtInputOffset(role, m2);
  }
}
