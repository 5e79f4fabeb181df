/** `Directive` and `Directive::parse` (src/include/directive.rs): a
    stand-alone classifier of a directive payload. The processor does not call
    it; `Processor.Route` is the processor's own, slightly different, dispatch. */
module Directives {
  import opened Common

  datatype Directive = Include(path: string) | Shell(command: string) | Json(path: string)

  /** The `$(` ... `)` form of a special directive. */
  predicate IsSpecialForm(input: string) {
    StartsWith(input, "$(") && EndsWith(input, ")")
  }

  /** A special form is at least three characters long, so `input[2..len-1]` is in bounds. */
  lemma SpecialFormLength(input: string)
    requires IsSpecialForm(input)
    ensures |input| >= 3
  {
    assert input[1] == input[..2][1] == '(';
    assert input[|input| - 1] == input[|input| - 1..][0] == ')';
  }

  /** The text between `$(` and `)` of a special form. */
  function Inner(input: string): (inner: string)
    requires IsSpecialForm(input)
    ensures input == "$(" + inner + ")"
  {
    SpecialFormLength(input);
    assert input == input[..2] + input[2..|input| - 1] + input[|input| - 1..];
    input[2..|input| - 1]
  }

  /** `Directive::parse`: an unknown `$(...)` form gives `None`. */
  function Parse(input: string): Option<Directive> {
    if IsSpecialForm(input) then
      var inner := Inner(input);
      if StartsWith(inner, "shell ") then Some(Shell(inner[6..]))
      else if StartsWith(inner, "json ") then Some(Json(inner[5..]))
      else None
    else
      Some(Include(input))
  }

  /** `parse` returns `Some(Include(input))`, payload unchanged, exactly when the
      `$(`...`)` test fails; the other results come only from special forms. */
  lemma ParseIncludeIff(input: string)
    ensures (Parse(input) == Some(Include(input))) <==> !IsSpecialForm(input)
    ensures (Parse(input).Some? && Parse(input).value.Include?) <==> !IsSpecialForm(input)
  {
  }

  /** Round trip: a shell directive wraps back to the command it was built from. */
  lemma {:induction false} ParseShellRoundTrip(command: string)
    ensures Parse("$(shell " + command + ")") == Some(Shell(command))
  {
    var input := "$(shell " + command + ")";
    assert input[..2] == "$(";
    assert input[|input| - 1..] == ")";
    var inner := Inner(input);
    assert inner == "shell " + command by {
      assert "$(" + inner + ")" == "$(" + ("shell " + command) + ")";
      assert inner == input[2..|input| - 1];
    }
    assert inner[..6] == "shell ";
    assert inner[6..] == command;
  }

  /** Round trip: a json directive wraps back to the path it was built from. */
  lemma {:induction false} ParseJsonRoundTrip(path: string)
    ensures Parse("$(json " + path + ")") == Some(Json(path))
  {
    var input := "$(json " + path + ")";
    assert input[..2] == "$(";
    assert input[|input| - 1..] == ")";
    var inner := Inner(input);
    assert inner == "json " + path by {
      assert "$(" + inner + ")" == "$(" + ("json " + path) + ")";
      assert inner == input[2..|input| - 1];
    }
    assert inner[..5] == "json ";
    NotStartsWithAt(inner, "shell ", 0);
    assert inner[5..] == path;
  }

  /** A special form whose inner text starts with neither `shell ` nor `json `
      is rejected. */
  lemma ParseUnknownIsNone(input: string)
    requires IsSpecialForm(input)
    requires !StartsWith(Inner(input), "shell ") && !StartsWith(Inner(input), "json ")
    ensures Parse(input) == None
  {
  }
}
