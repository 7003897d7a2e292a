/** The inference strategy of the local model: the roles, stop string, token
    limit and temperature used for single calls and for chats, updated field
    by field, with warnings for missing settings and an error when no
    temperature is set. */
module LocalStrategys {
  import opened Common

  /** The warnings `necessary` issues, in the order it checks them. */
  datatype Warning = MissingInputRole | MissingOutputRole | MissingMaxToken | MissingStop

  /** The text of the `ValueError` raised when no temperature is set. */
  const TemperatureNotSet := "Error: Inference temperature must be set."

  function Rank(w: Warning): nat
  {
    match w
    case MissingInputRole => 0
    case MissingOutputRole => 1
    case MissingMaxToken => 2
    case MissingStop => 3
  }

  /** Python truthiness of an optional token count: neither `None` nor `0`. */
  predicate TokensSet(maxToken: Option<int>)
  {
    maxToken.Some? && maxToken.value != 0
  }

  /** `necessary`: the warnings raised for the settings given, one per unset
      or empty setting, in the order the checks run. */
  function Necessary(inputRole: Option<string>, outputRole: Option<string>, maxToken: Option<int>,
                     stop: Option<string>): (warnings: seq<Warning>)
    ensures MissingInputRole in warnings <==> !Present(inputRole)
    ensures MissingOutputRole in warnings <==> !Present(outputRole)
    ensures MissingMaxToken in warnings <==> !TokensSet(maxToken)
    ensures MissingStop in warnings <==> !Present(stop)
    ensures forall i, j :: 0 <= i < j < |warnings| ==> Rank(warnings[i]) < Rank(warnings[j])
  {
    (if Present(inputRole) then [] else [MissingInputRole])
    + (if Present(outputRole) then [] else [MissingOutputRole])
    + (if TokensSet(maxToken) then [] else [MissingMaxToken])
    + (if Present(stop) then [] else [MissingStop])
  }

  /** The update rule of both update methods: a `None` argument keeps the
      current value, any other argument (`''` and `0` included) replaces it. */
  function Override<T>(current: Option<T>, argument: Option<T>): (r: Option<T>)
    ensures argument.Some? ==> r == argument
    ensures argument.None? ==> r == current
  {
    if argument.Some? then argument else current
  }

  /** Repeating an update changes nothing more, and an update that passes
      `None` everywhere is no update. */
  lemma OverrideIdempotent<T>(current: Option<T>, argument: Option<T>)
    ensures Override(Override(current, argument), argument) == Override(current, argument)
    ensures Override(current, None) == current
  {
  }

  class Strategy {
    var callRole: IoRoles
    var callStop: Option<string>
    var callTokens: Option<int>
    var callTemperature: Option<real>
    var chatRole: IoRoles
    var chatPrompt: Option<string>
    var chatStop: Option<string>
    var chatTokens: Option<int>
    var chatTemperature: Option<real>

    /** `Strategy()`: nothing is set. */
    constructor ()
      ensures callRole == IoRoles(None, None) && callStop.None? && callTokens.None? && callTemperature.None?
      ensures chatRole == IoRoles(None, None) && chatPrompt.None? && chatStop.None? && chatTokens.None?
      ensures chatTemperature.None?
    {
      callRole := IoRoles(None, None);
      callStop := None;
      callTokens := None;
      callTemperature := None;
      chatRole := IoRoles(None, None);
      chatPrompt := None;
      chatStop := None;
      chatTokens := None;
      chatTemperature := None;
    }

    /** The update `call`: apply the given settings to the single-call
        strategy, report the warnings for what is still missing, and fail when
        no temperature is set. The settings are written even when it fails;
        the chat strategy is not touched. */
    method Call(inputRole: Option<string>, outputRole: Option<string>, stop: Option<string>,
                maxToken: Option<int>, temperature: Option<real>)
      returns (warnings: seq<Warning>, out: Outcome<string>)
      modifies this
      ensures callRole == IoRoles(Override(old(callRole.input), inputRole), Override(old(callRole.output), outputRole))
      ensures callStop == Override(old(callStop), stop)
      ensures callTokens == Override(old(callTokens), maxToken)
      ensures callTemperature == Override(old(callTemperature), temperature)
      ensures warnings == Necessary(callRole.input, callRole.output, callTokens, callStop)
      ensures out == (if callTemperature.None? then Fail(TemperatureNotSet) else Pass)
      ensures out.Fail? <==> temperature.None? && old(callTemperature).None?
      ensures chatRole == old(chatRole) && chatPrompt == old(chatPrompt) && chatStop == old(chatStop)
      ensures chatTokens == old(chatTokens) && chatTemperature == old(chatTemperature)
    {
      if inputRole.Some? {
        callRole := callRole.(input := inputRole);
      }
      if outputRole.Some? {
        callRole := callRole.(output := outputRole);
      }
      if stop.Some? {
        callStop := stop;
      }
      if maxToken.Some? {
        callTokens := maxToken;
      }
      if temperature.Some? {
        callTemperature := temperature;
      }
      warnings := Necessary(callRole.input, callRole.output, callTokens, callStop);
      if callTemperature.None? {
        return warnings, Fail(TemperatureNotSet);
      }
      out := Pass;
    }

    /** The update `chat`: as `call`, for the chat strategy, which also has a
        prompt. The single-call strategy is not touched. */
    method Chat(prompt: Option<string>, inputRole: Option<string>, outputRole: Option<string>,
                stop: Option<string>, maxToken: Option<int>, temperature: Option<real>)
      returns (warnings: seq<Warning>, out: Outcome<string>)
      modifies this
      ensures chatPrompt == Override(old(chatPrompt), prompt)
      ensures chatRole == IoRoles(Override(old(chatRole.input), inputRole), Override(old(chatRole.output), outputRole))
      ensures chatStop == Override(old(chatStop), stop)
      ensures chatTokens == Override(old(chatTokens), maxToken)
      ensures chatTemperature == Override(old(chatTemperature), temperature)
      ensures warnings == Necessary(chatRole.input, chatRole.output, chatTokens, chatStop)
      ensures out == (if chatTemperature.None? then Fail(TemperatureNotSet) else Pass)
      ensures out.Fail? <==> temperature.None? && old(chatTemperature).None?
      ensures callRole == old(callRole) && callStop == old(callStop) && callTokens == old(callTokens)
      ensures callTemperature == old(callTemperature)
    {
      if prompt.Some? {
        chatPrompt := prompt;
      }
      if inputRole.Some? {
        chatRole := chatRole.(input := inputRole);
      }
      if outputRole.Some? {
        chatRole := chatRole.(output := outputRole);
      }
      if stop.Some? {
        chatStop := stop;
      }
      if maxToken.Some? {
        chatTokens := maxToken;
      }
      if temperature.Some? {
        chatTemperature := temperature;
      }
      warnings := Necessary(chatRole.input, chatRole.output, chatTokens, chatStop);
      if chatTemperature.None? {
        return warnings, Fail(TemperatureNotSet);
      }
      out := Pass;
    }
  }
}
