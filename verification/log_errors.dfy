/** The error kinds raised by the conversation log (every one of them a
    `LogError`) and the exact text each one carries. Integers in the texts are
    rendered as Python's `str(int)` does. */
module LogErrors {

  /** The `LogError` hierarchy: each constructor is one subclass. */
  datatype LogError =
    | SectionNotCreated(id: int)
    | BranchNotCreated(section: int, branch: int)
    | SectionNotSet
    | BranchNotSet
    | InferenceMode
    | LogbaseOperationFailed

  predicate IsDigit(c: char)
  {
    '0' <= c <= '9'
  }

  function DigitChar(d: nat): (c: char)
    requires d < 10
    ensures IsDigit(c) && c as int - '0' as int == d
  {
    ('0' as int + d) as char
  }

  /** Decimal digits of `n`, most significant first, without leading zeros. */
  function NatToString(n: nat): (s: string)
    ensures |s| > 0
    ensures forall k :: 0 <= k < |s| ==> IsDigit(s[k])
  {
    if n < 10 then [DigitChar(n)] else NatToString(n / 10) + [DigitChar(n % 10)]
  }

  /** The number a string of decimal digits denotes. */
  function DigitsValue(s: string): nat
    requires forall k :: 0 <= k < |s| ==> IsDigit(s[k])
  {
    if s == [] then 0
    else
      assert IsDigit(s[|s| - 1]);
      DigitsValue(s[..|s| - 1]) * 10 + (s[|s| - 1] as int - '0' as int)
  }

  lemma {:induction false} NatToStringRoundTrip(n: nat)
    ensures DigitsValue(NatToString(n)) == n
  {
    if n >= 10 {
      var s := NatToString(n);
      assert s[..|s| - 1] == NatToString(n / 10);
      NatToStringRoundTrip(n / 10);
    }
  }

  /** Python's `str(i)` for an integer: a minus sign for negatives, then the
      decimal digits. */
  function IntToString(i: int): (s: string)
    ensures |s| > 0
    ensures s[0] == '-' <==> i < 0
    ensures forall k :: 0 <= k < |s| ==> s[k] != '`'
  {
    if i < 0 then "-" + NatToString(-i) else NatToString(i)
  }

  /** Different integers print differently, so an error text names its ids
      unambiguously. */
  lemma IntToStringInjective(a: int, b: int)
    requires IntToString(a) == IntToString(b)
    ensures a == b
  {
    if a < 0 {
      assert IntToString(a)[1..] == NatToString(-a);
      assert IntToString(b)[1..] == NatToString(-b);
      NatToStringRoundTrip(-a);
      NatToStringRoundTrip(-b);
    } else {
      NatToStringRoundTrip(a);
      NatToStringRoundTrip(b);
    }
  }

  /** The text each error is raised with (`str(error)`). The operation-failed
      error is raised without arguments, so its text is empty. */
  function Message(e: LogError): (m: string)
    ensures e.SectionNotCreated? ==>
      var s := IntToString(e.id);
      |m| == 31 + |s| && m[..9] == "Section `" && m[9..9 + |s|] == s && m[9 + |s|..] == "` hasn't been created."
    ensures e.BranchNotCreated? ==>
      var b, s := IntToString(e.branch), IntToString(e.section);
      |m| == 44 + |b| + |s| && m[..8] == "Branch `" && m[8..8 + |b|] == b && m[|m| - 2 - |s|..|m| - 2] == s
    ensures m == "" <==> e.LogbaseOperationFailed?
  {
    match e
    case SectionNotCreated(id) => "Section `" + IntToString(id) + "` hasn't been created."
    case BranchNotCreated(section, branch) =>
      "Branch `" + IntToString(branch) + "` hasn't been created in Section `" + IntToString(section) + "`."
    case SectionNotSet => "Section hasn't been set."
    case BranchNotSet => "Branch hasn't been set."
    case InferenceMode => "Inference mode not compatible."
    case LogbaseOperationFailed => ""
  }

  /** In `x + r`, where `x` holds no backtick and `r` starts with one, the
      first backtick is at index `|x|`. */
  lemma FirstTick(x: string, r: string)
    requires forall k :: 0 <= k < |x| ==> x[k] != '`'
    requires |r| > 0 && r[0] == '`'
    ensures (x + r)[|x|] == '`'
    ensures forall k :: 0 <= k < |x| ==> (x + r)[k] != '`'
  {
  }

  /** Two strings free of backticks, each followed by a backtick, split a
      common string at the same place. */
  lemma TickSplit(x1: string, r1: string, x2: string, r2: string)
    requires forall k :: 0 <= k < |x1| ==> x1[k] != '`'
    requires forall k :: 0 <= k < |x2| ==> x2[k] != '`'
    requires |r1| > 0 && r1[0] == '`' && |r2| > 0 && r2[0] == '`'
    requires x1 + r1 == x2 + r2
    ensures x1 == x2 && r1 == r2
  {
    FirstTick(x1, r1);
    FirstTick(x2, r2);
    assert |x1| == |x2|;
    assert x1 == (x1 + r1)[..|x1|];
    assert x2 == (x2 + r2)[..|x2|];
    assert r1 == (x1 + r1)[|x1|..];
    assert r2 == (x2 + r2)[|x2|..];
  }

  /** The characters that tell the kinds of error apart in their texts. */
  lemma KindMarks(e: LogError)
    ensures var m := Message(e);
      && (e.SectionNotCreated? ==> |m| > 8 && m[0] == 'S' && m[8] == '`')
      && (e.SectionNotSet? ==> |m| > 8 && m[0] == 'S' && m[8] == 'h')
      && (e.BranchNotCreated? ==> |m| > 8 && m[0] == 'B' && m[7] == '`')
      && (e.BranchNotSet? ==> |m| > 8 && m[0] == 'B' && m[7] == 'h')
      && (e.InferenceMode? ==> |m| > 8 && m[0] == 'I')
      && (e.LogbaseOperationFailed? ==> m == "")
  {
    var m := Message(e);
    match e
    case SectionNotCreated(_) => assert m[..9] == "Section `";
    case BranchNotCreated(_, _) => assert m[..8] == "Branch `";
    case _ =>
  }

  lemma SectionNotCreatedInjective(id1: int, id2: int)
    requires Message(SectionNotCreated(id1)) == Message(SectionNotCreated(id2))
    ensures id1 == id2
  {
    var x1, x2 := IntToString(id1), IntToString(id2);
    var tail := "` hasn't been created.";
    var m := Message(SectionNotCreated(id1));
    assert m == "Section `" + (x1 + tail);
    assert m == "Section `" + (x2 + tail);
    assert x1 + tail == m[9..] == x2 + tail;
    TickSplit(x1, tail, x2, tail);
    IntToStringInjective(id1, id2);
  }

  /** A text made of a prefix, a backtick-free part, a separator starting with
      a backtick, a second part and a fixed tail determines both parts. */
  lemma SplitAroundSeparator(p: string, x1: string, y1: string, x2: string, y2: string, sep: string, tail: string)
    requires forall k :: 0 <= k < |x1| ==> x1[k] != '`'
    requires forall k :: 0 <= k < |x2| ==> x2[k] != '`'
    requires |sep| > 0 && sep[0] == '`'
    requires p + x1 + sep + y1 + tail == p + x2 + sep + y2 + tail
    ensures x1 == x2 && y1 == y2
  {
    var m1, m2 := p + x1 + sep + y1 + tail, p + x2 + sep + y2 + tail;
    assert m1[|p|..] == x1 + (sep + y1 + tail);
    assert m2[|p|..] == x2 + (sep + y2 + tail);
    TickSplit(x1, sep + y1 + tail, x2, sep + y2 + tail);
    assert (sep + y1 + tail)[|sep|..] == y1 + tail;
    assert (sep + y2 + tail)[|sep|..] == y2 + tail;
    assert y1 == (y1 + tail)[..|y1|];
    assert y2 == (y2 + tail)[..|y2|];
  }

  lemma BranchNotCreatedInjective(s1: int, b1: int, s2: int, b2: int)
    requires Message(BranchNotCreated(s1, b1)) == Message(BranchNotCreated(s2, b2))
    ensures s1 == s2 && b1 == b2
  {
    SplitAroundSeparator("Branch `", IntToString(b1), IntToString(s1), IntToString(b2), IntToString(s2),
      "` hasn't been created in Section `", "`.");
    IntToStringInjective(b1, b2);
    IntToStringInjective(s1, s2);
  }

  /** Every error text identifies its error: no two different errors (kinds
      or ids) are raised with the same text. */
  lemma MessageDeterminesError(e1: LogError, e2: LogError)
    requires Message(e1) == Message(e2)
    ensures e1 == e2
  {
    var m1, m2 := Message(e1), Message(e2);
    if e1.SectionNotCreated? && e2.SectionNotCreated? {
      SectionNotCreatedInjective(e1.id, e2.id);
    } else if e1.BranchNotCreated? && e2.BranchNotCreated? {
      BranchNotCreatedInjective(e1.section, e1.branch, e2.section, e2.branch);
    } else {
      // Different kinds have texts that differ in their first, eighth or ninth character.
      KindMarks(e1);
      KindMarks(e2);
    }
  }
}
