/** Values shared by the log and prompt components: optional values, error
    outcomes, the role mapping, one query/response iteration and one
    role-tagged chat message, plus the two string tests Python code performs
    with `not x` and `str.endswith`. */
module Common {

  /** Python's `None` or a value. */
  datatype Option<+T> = None | Some(value: T)

  /** A call that either completes or raises an exception of kind `E`. */
  datatype Outcome<+E> = Pass | Fail(error: E)

  /** A call that either returns a value or raises an exception of kind `E`. */
  datatype Result<+T, +E> = Ok(value: T) | Err(error: E)

  /** The role mapping `Role(prompt, input, output)`: the labels used for the
      additional (system) prompt, the user turn and the model turn. */
  datatype Role = Role(prompt: string, input: string, output: string)

  /** An input/output role pair whose entries may be unset, as kept by the
      strategy objects (`{'input': None, 'output': None}`). */
  datatype IoRoles = IoRoles(input: Option<string>, output: Option<string>)

  /** One query/response pair, `{'query': ..., 'response': ...}`. */
  datatype Iteration = Iteration(query: string, response: string)

  /** One structured chat record, `{'role': ..., 'content': ...}`. */
  datatype Message = Message(role: string, content: string)

  /** Python truthiness of an optional string: it is neither `None` nor `''`. */
  predicate Present(s: Option<string>)
  {
    s.Some? && s.value != ""
  }

  /** `s.endswith(suffix)`. */
  predicate EndsWith(s: string, suffix: string)
  {
    |suffix| <= |s| && s[|s| - |suffix|..] == suffix
  }

  /** A turn history after `iterate`: emptied unless `keep` holds, then
      extended by the new record when there is one. */
  function Iterated<R>(history: seq<R>, record: Option<R>, keep: bool): (h: seq<R>)
    ensures |h| == (if keep then |history| else 0) + (if record.Some? then 1 else 0)
    ensures keep ==> h[..|history|] == history
    ensures record.Some? ==> h[|h| - 1] == record.value
    ensures record.None? && keep ==> h == history
    ensures record.None? && !keep ==> h == []
  {
    var kept := if keep then history else [];
    match record
    case None => kept
    case Some(r) => kept + [r]
  }
}
