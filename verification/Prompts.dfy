/** The prompts of the guarded installation dialogue. */
module Prompts {

  const PASTE_PROMPT := "Paste the certificate here and enter:"
  const REPLACEMENT_PROMPT :=
    "This certificate will replace an existing local certificate. Continue (y/n)?"

  predicate IsSpace(c: char) {
    c == ' ' || '\t' <= c <= '\r' || '\U{1c}' <= c <= '\U{1f}' || c == '\U{85}' || c == '\U{a0}'
    || c == '\U{1680}' || '\U{2000}' <= c <= '\U{200a}' || c == '\U{2028}' || c == '\U{2029}'
    || c == '\U{202f}' || c == '\U{205f}' || c == '\U{3000}'
  }

  /** White space, by code point. */
  lemma SpacesSpelled(c: char)
    ensures IsSpace(c) <==>
      var n := c as int;
      || 9 <= n <= 13 || 28 <= n <= 32 || n == 133 || n == 160 || n == 5760 || 8192 <= n <= 8202 || n == 8232
      || n == 8233 || n == 8239 || n == 8287 || n == 12288
  {
  }

  /** rstrip */
  function Stripped(s: string): (r: string)
    ensures r <= s && (r == [] || !IsSpace(r[|r| - 1]))
    ensures forall i | |r| <= i < |s| :: IsSpace(s[i])
  {
    if s != [] && IsSpace(s[|s| - 1]) then Stripped(s[..|s| - 1]) else s
  }

  /** _ends_with_expected_prompt; cliError is _contains_obvious_cli_error. */
  predicate Asks(cliError: string -> bool, output: string, prompt: string) {
    && !cliError(output)
    && |Stripped(output)| >= |prompt| && Stripped(output)[|Stripped(output)| - |prompt|..] == prompt
  }

  predicate Blank(s: string) { forall i | 0 <= i < |s| :: IsSpace(s[i]) }

  /** A prompt is asked for if and only if the output has no error and ends with it, up to
      white space. */
  lemma AsksExactly(cliError: string -> bool, output: string, prompt: string)
    requires prompt != "" && !IsSpace(prompt[|prompt| - 1])
    ensures Asks(cliError, output, prompt) <==>
              !cliError(output) && exists before, blanks :: Blank(blanks) && output == before + prompt + blanks
  {
    hide IsSpace, Stripped;
    var text := Stripped(output);
    if Asks(cliError, output, prompt) {
      var before, blanks := text[..|text| - |prompt|], output[|text|..];
      assert Blank(blanks) && output == before + prompt + blanks;
    }
    forall before, blanks | Blank(blanks) && output == before + prompt + blanks
      ensures |text| >= |prompt| && text[|text| - |prompt|..] == prompt
    {
      EndsThere(before, prompt, blanks);
    }
  }

  lemma EndsThere(before: string, prompt: string, blanks: string)
    requires prompt != "" && !IsSpace(prompt[|prompt| - 1]) && Blank(blanks)
    ensures Stripped(before + prompt + blanks) == before + prompt
  {
    hide IsSpace, Stripped;
    var output := before + prompt + blanks;
    var text, end := Stripped(output), |before + prompt|;
    assert output[end - 1] == prompt[|prompt| - 1];
    forall i | end <= i < |output| ensures IsSpace(output[i]) {
      assert output[i] == blanks[i - end];
    }
    assert text == output[..|text|];
    assert output[..end] == before + prompt;
  }

  /** Whoever prints the prompt and nothing else asks for it. */
  lemma AsksItself(cliError: string -> bool, prompt: string)
    requires prompt != "" && !IsSpace(prompt[|prompt| - 1]) && !cliError(prompt)
    ensures Asks(cliError, prompt, prompt)
  {
    assert Stripped(prompt) == prompt;
  }
}
