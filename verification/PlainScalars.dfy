/**
 Which values are written without quotes (src/wudup/compose_source.py), against the grammar of
 plain scalars on one line in section 7.3.3 of YAML 1.2.2.
 */
module PlainScalars {
  import opened Ordering
  import opened YamlScalar

  // ---------- The grammar ----------

  /** `s-white` */
  predicate IsWhite(c: char) {
    c == ' ' || c == '\t'
  }

  /** `c-flow-indicator` */
  predicate IsFlowIndicator(c: char) {
    c == ',' || c == '[' || c == ']' || c == '{' || c == '}'
  }

  /** `c-indicator` */
  predicate IsIndicator(c: char) {
    || c == '-' || c == '?' || c == ':' || IsFlowIndicator(c) || c == '#' || c == '&' || c == '*' || c == '!'
    || c == '|' || c == '>' || c == '\'' || c == '"' || c == '%' || c == '@' || c == '`'
  }

  /** `ns-plain-safe(c)` */
  predicate PlainSafe(c: char, flow: bool) {
    !IsWhite(c) && (flow ==> !IsFlowIndicator(c))
  }

  /** `ns-plain-first(c)`: no indicator, or `?`, `:` or `-` with a safe character behind it. */
  ghost predicate PlainFirst(value: string, flow: bool)
    requires value != ""
  {
    || (!IsWhite(value[0]) && !IsIndicator(value[0]))
    || ((value[0] == '?' || value[0] == ':' || value[0] == '-') && |value| > 1 && PlainSafe(value[1], flow))
  }

  /** `ns-plain-char(c)` or white space, in its context. */
  ghost predicate PlainAt(value: string, i: nat, flow: bool)
    requires 0 < i < |value|
  {
    if value[i] == ':' then i + 1 < |value| && PlainSafe(value[i + 1], flow)
    else if value[i] == '#' then !IsWhite(value[i - 1])
    else IsWhite(value[i]) || PlainSafe(value[i], flow)
  }

  /** `ns-plain-one-line(c)`: no white space at the end either. */
  ghost predicate PlainScalar(value: string, flow: bool) {
    && value != "" && PlainFirst(value, flow) && !IsWhite(value[|value| - 1])
    && forall i :: 0 < i < |value| ==> PlainAt(value, i, flow)
  }

  // ---------- What is written plain ----------

  lemma UnsafeIff(value: string, flow: bool)
    ensures Unsafe(value, flow) <==>
            || (value != "" && IsIndicator(value[0]))
            || (exists i :: 0 <= i < |value| - 1 && IsWhite(value[i]) && value[i + 1] == '#')
            || (exists i :: 0 <= i < |value| - 1 && value[i] == ':' && IsWhite(value[i + 1]))
            || (flow && exists i :: 0 <= i < |value| && IsFlowIndicator(value[i]))
  {
    if value != "" { Indicators(value[0]); }
    forall i | 0 <= i < |value| ensures value[i] in "[]{}," <==> IsFlowIndicator(value[i]) {
      FlowIndicators(value[i]);
    }
    hide IsIndicator, IsFlowIndicator;
  }

  lemma Indicators(c: char)
    ensures c in "-?:,[]{}#&*!|>'\"%@`" <==> IsIndicator(c)
  {
  }

  lemma FlowIndicators(c: char)
    ensures c in "[]{}," <==> IsFlowIndicator(c)
  {
  }

  /** A value is written in quotes whenever it would be no plain scalar, but for the cases of `PlainIff`. */
  lemma PlainNeedsNoQuotes(value: string, flow: bool)
    requires PlainScalar(value, flow)
    ensures Unsafe(value, flow) <==> value[0] == '-' || value[0] == '?' || value[0] == ':'
  {
    UnsafeIff(value, flow);
    forall i | 0 <= i < |value| - 1
      ensures !(IsWhite(value[i]) && value[i + 1] == '#')
      ensures value[i] == ':' && value[0] != ':' ==> !IsWhite(value[i + 1])
    {
      assert PlainAt(value, i + 1, flow);
      if i > 0 { assert PlainAt(value, i, flow); }
    }
    if flow {
      forall i | 0 <= i < |value| ensures !IsFlowIndicator(value[i]) {
        if i > 0 { assert PlainAt(value, i, flow); }
      }
    }
  }

  /**
   A value that is written without quotes is a plain scalar if and only if it is not empty, has no white
   space at its ends and does not end in a colon.
   */
  lemma PlainIff(value: string, flow: bool)
    requires !Unsafe(value, flow)
    ensures PlainScalar(value, flow) <==>
            value != "" && !IsWhite(value[0]) && !IsWhite(value[|value| - 1]) && value[|value| - 1] != ':'
  {
    UnsafeIff(value, flow);
    if value != "" {
      if |value| > 1 && value[|value| - 1] == ':' { assert !PlainAt(value, |value| - 1, flow); }
      if value[|value| - 1] != ':' {
        forall i | 0 < i < |value| ensures PlainAt(value, i, flow) {
          assert i + 1 < |value| ==> !(value[i] == ':' && IsWhite(value[i + 1]));
          assert !(IsWhite(value[i - 1]) && value[(i - 1) + 1] == '#');
        }
      }
    }
  }

  /** A value that ends in a colon is written without quotes although it is no plain scalar. */
  lemma ColonAtTheEnd()
    ensures RenderYamlScalarLike("", "a:", false) == Ok("a:") && !PlainScalar("a:", false)
  {
    UnsafeIff("a:", false);
    PlainIff("a:", false);
  }
}
